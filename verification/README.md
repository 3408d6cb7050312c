# Verified model of the GPU planner, the GPU budgets and the anti-phase benchmark

This Dafny project models the parts of the workload-variant autoscaler whose
correctness is a property of whole runs or of several functions together:

* **The GPU-transfer planner** of `hack/utilization-share-oscillation-sim.py`:
  two target solvers and a discrete-time machine that lands, fills, cancels and
  starts transfers of GPUs between roles. Demand is an arbitrary function of time
  and role, so every theorem about a run is a theorem about all workloads, and
  runs may have any number of cycles.
* **The GPU budget algebra** of `internal/accelerator`: family and product names,
  closed allowlists, and the bound several of them put on a name together.
* **The anti-phase benchmark schedule** and what is measured of it
  (`hack/benchmark/two_model_profile.py`, `two_model_report.py`).
* **Three smaller machines**: the here-document escaping of
  `hack/render-warmpool-spec.py`, the readiness gate of `cmd/main.go`, and the
  cycle clustering of `hack/benchmark/dump_k2_decisions.py`.

`dafny verify dfyconfig.toml` checks all of it.

## How it is organised

| file | module(s) | content |
|---|---|---|
| `options.dfy` | `Options` | a value that may be missing |
| `planner_types.dfy` | `PlannerTypes` | constants, roles, rules, `z`, tolerance, band |
| `integer_targets.dfy` | `Tables`, `IntegerTargets` | the greedy leveller |
| `continuous_targets.dfy` | `ContinuousTargets` | the continuous leveller |
| `planner.dfy` | `Planner` | one decision cycle as functions of the state, and runs |
| `planner_safety.dfy` | `PlannerSafety` | conservation, the reversal hold, the floors |
| `planner_causes.dfy` | `PlannerCauses` | which pairs are tried, and why a transfer starts |
| `planner_cancels.dfy` | `PlannerCancels` | which transfers are cancelled, and why |
| `leximin.dfy`, `planner_progress.dfy` | `Leximin`, `PlannerProgress` | progress at a fixed need |
| `planner_memory.dfy` | `PlannerMemory` | what a run remembers, delivers and adds up |
| `planner_swing.dfy` | `PlannerSwing` | when a role is damped |
| `simulation.dfy` | `Simulation` | the simulator's loops and its report |
| `floor_limits.dfy` | `FloorLimits` | where floor safety ends |
| `lexical.dfy`, `accelerator_names.dfy` | `Lexical`, `AcceleratorNames` | names |
| `allowlists.dfy`, `allowlist_exact.dfy` | `Allowlists`, `AllowlistExact` | budgets |
| `catch_all.dfy` | `CatchAll` | what allowlists say of every name, and of those that are no accelerator |
| `budget_keys.dfy` | `BudgetKeys` | lookups in a budget map |
| `partitions.dfy` | `Partitions` | integrals of step functions over any fine partition |
| `resource_series.dfy` | `ResourceSeries` | clipping and integrating a sampled series |
| `schedules.dfy`, `anti_phase.dfy` | `Schedules`, `AntiPhase` | the schedule and its measurement |
| `here_document.dfy` | `HereDocument` | placeholders, escaping, and what the shell expands |
| `placeholder_guard.dfy` | `PlaceholderGuard` | the guard against anything else the shell would expand |
| `pod_spec_text.dfy` | `PodSpecText` | the generator's text, and what the here-document hands on |
| `generated_block.dfy` | `GeneratedBlock` | replacing the generated block of the script |
| `readiness.dfy` | `Readiness` | the readiness gate |
| `optimize_cycles.dfy` | `OptimizeCycles` | clustering log events |

Code that works by loops is a method (`...Loop`, `Simulate`) proved to compute a
specification function; the theorems are lemmas about those functions. A Go map or
a Python dictionary is a set or map visited in arbitrary order, so a proof that a
method computes a function of the map is also a proof that the map order does not
matter. The readiness gate updates package variables, and is a class.

Modelling choices. GPU counts are integers; needs, weights, times of the benchmark
and all derived figures are exact reals. Role dictionaries are tables indexed by
insertion order, with names kept for the tie-break. Random demand is a parameter.
A transfer carries a serial number, and the fleet keeps the lists of started and
cancelled transfers that the simulator only counts. Case folding is ASCII.

Where the code and its documentation differ, the model follows the code:

* the optimizer proposal says a cancelled transfer holds neither of its roles; the
  simulator sets both hold timers at a cancel (lines 203-205;
  `PlannerCancels.CancelHolds`);
* `stage_map` is documented to cut every phase after the lead-in; it cuts only a
  phase some model rises into (lines 161-163);
* `FindBudgetKey` is documented as `FindKey` with one difference; there are three
  (`BudgetKeys.LookupsDiffer`).

Four properties turned out not to hold of the code in general; each has a family of
counterexamples and the exact condition under which it does hold:

* floor safety fails for every floor of more than one replica, whatever the replica
  size (`FloorLimits.LargerFloorBreaks`, a run of two cycles with every shipped rule
  on); a floor of whole replicas is kept by every run if and only if it is at most
  one replica (`FloorLimits.FloorKeptExactly`);
* the greedy target is monotone in the budget, for all needs, if and only if all
  replicas have the same size (`IntegerTargets.MonotoneExactly`);
* the guard of `as_yaml` passes a text with a placeholder nested in one that is
  removed later (`PlaceholderGuard.NestingPasses`). On a text in which no placeholder
  stands directly behind the beginning of one it passes exactly what is safe
  (`PlaceholderGuard.GuardExact`), and it does so on every text if and only if there
  is at most one placeholder (`PlaceholderGuard.GuardExactlyForOne`);
* without bands between bursts no drift above 0 is safe, on any schedule
  (`AntiPhase.NoBandsNoSafety`), and no drift at all is (`AntiPhase.NoDriftNoOverlap`).

## Model

| member | source | states |
|---|---|---|
| `PlannerTypes.ZStrict` | hack/utilization-share-oscillation-sim.py:78-82 | one more GPU strictly raises the weighted headroom of a role with need, across the surplus and shortage branches |
| `PlannerTypes.ZMonotone` | hack/utilization-share-oscillation-sim.py:78-82 | headroom never falls with more GPUs, need or no need |
| `PlannerTypes.InBandExactly` | hack/utilization-share-oscillation-sim.py:116-125 | the band without divisions: within 15 percent of the target or half a replica, or, for a role that is not short, a utilization within 0.05 of the one at the target; a short role is in band by the first alone |
| `IntegerTargets.PickFirst` | hack/utilization-share-oscillation-sim.py:108-111 | none is chosen exactly when no role with need has a replica the budget buys; the chosen role has a smaller z than every other such role, or the same z and a larger weight, or the same z and weight and no name that precedes it |
| `IntegerTargets.HeavierNeverLess` | hack/utilization-share-oscillation-sim.py:104-113 | for every budget, of two roles with the same replica size, floor and need the heavier never gets less; of the same weight too, the one whose name comes first never gets less and at most one replica more |
| `IntegerTargets.IntegerTargetsLoop` | hack/utilization-share-oscillation-sim.py:104-113 | the loop terminates and computes the greedy allocation |
| `IntegerTargets.IntegerSpending` | hack/utilization-share-oscillation-sim.py:104-113 | floors are kept, only whole replicas are added and none to a role without need; a budget covering the floors is never overspent, a smaller one spends nothing; what is left buys no replica for any role with need |
| `IntegerTargets.IntegerMonotone` | hack/utilization-share-oscillation-sim.py:104-113 | with equal replica sizes a larger budget gives every role at least as much |
| `IntegerTargets.IntegerMaxMin` | hack/utilization-share-oscillation-sim.py:104-113 | with equal replica sizes no allocation of floors plus whole replicas within the budget has a larger smallest z |
| `IntegerTargets.TwoSizesBreakMonotone` | hack/utilization-share-oscillation-sim.py:104-113 | in every role table with two different replica sizes there are needs and a budget at which one GPU more leaves the role with the smaller replica with less |
| `IntegerTargets.MonotoneExactly` | hack/utilization-share-oscillation-sim.py:104-113 | the target is monotone in the budget, for all needs and budgets, if and only if all replica sizes are equal |
| `IntegerTargets.MonotoneNeedsEqualSizes` | hack/utilization-share-oscillation-sim.py:104-113 | an instance: with sizes 1 and 4 a budget of 4 gives a role nothing where a budget of 3 gave it 3 |
| `ContinuousTargets.ContinuousTargetsLoop` | hack/utilization-share-oscillation-sim.py:85-101 | the dictionary-filling loops compute the waterline targets |
| `ContinuousTargets.WaterlineExists` | hack/utilization-share-oscillation-sim.py:85-101 | there is one waterline: a role whose need is not above its floor gets its floor, every other has that z or is held up by its floor, the latter in a shortage only; a surplus is spent exactly, a shortage exactly if and only if no floor holds a role up |
| `ContinuousTargets.ContinuousFloors` | hack/utilization-share-oscillation-sim.py:85-101 | no target is below its role's floor |
| `ContinuousTargets.ContinuousMonotone` | hack/utilization-share-oscillation-sim.py:85-101 | every role's target is non-decreasing in the budget, across shortage and surplus |
| `ContinuousTargets.ContinuousSurplus` | hack/utilization-share-oscillation-sim.py:93-96 | in surplus with a free role the targets add up to exactly the budget and every free role has the same z |
| `ContinuousTargets.ContinuousShortage` | hack/utilization-share-oscillation-sim.py:97-101 | in shortage they add up to at least the budget, and exactly to it if and only if no free role is clamped to its floor; unclamped free roles share one z and clamped ones sit strictly above it |
| `PlannerSafety.RunGood` | hack/utilization-share-oscillation-sim.py:147-270 | the invariant of the machine: every state any demand and any rules can reach conserves GPUs and transfers, lands on time, keeps its timers ahead of every start, and under the hold and floor conditions is spaced and above the floors |
| `PlannerSafety.RunConserves` | hack/utilization-share-oscillation-sim.py:147-202 | in every run total held GPUs are constant, each role holds what it serves plus what it fills, at most two transfers are in flight, and every started transfer is exactly one of in flight, landed and cancelled |
| `PlannerSafety.RunNeverReverses` | hack/utilization-share-oscillation-sim.py:203-205 | with the hold rule, for every demand and every run, opposite transfers of one role start at least HOLD apart, wasted is 0, and no role has a gift in flight while a receipt is in flight or filling |
| `PlannerSafety.StartSpaced` | hack/utilization-share-oscillation-sim.py:243-261 | the hold check at admission is enough to keep a new transfer HOLD away from every opposite transfer before it |
| `PlannerSafety.NothingOnItsWay` | hack/utilization-share-oscillation-sim.py:60-64 | a role whose receipt timer is HOLD old has nothing in flight towards it and nothing filling: the hold outlasts release plus fill |
| `PlannerSafety.FloorRefusesGift` | hack/utilization-share-oscillation-sim.py:116-125 | for every need and every target at or above the floor, a gift that would take a role of at most one floor replica below it fails the donor check |
| `PlannerSafety.RunKeepsFloors` | hack/utilization-share-oscillation-sim.py:184-261 | with hold and committed on, equal sizes and floors of at most one replica, in every reachable state, between cycles and at every decision, held minus gifts in flight, serving, and serving minus gifts are at or above the floor |
| `PlannerSafety.RunShortfallBounded` | hack/utilization-share-oscillation-sim.py:159-163 | in that case, under non-negative demand, the accumulated shortfall, plain and weighted, is between 0 and the accumulated need |
| `PlannerSafety.LandGood` | hack/utilization-share-oscillation-sim.py:148-154 | landing one due transfer keeps the whole invariant |
| `PlannerSafety.FillGood` | hack/utilization-share-oscillation-sim.py:155-157 | so does a replica that starts to serve |
| `PlannerSafety.CancelAllGood` | hack/utilization-share-oscillation-sim.py:184-205 | so does a round of cancels, which starts nothing and loses nothing |
| `PlannerSafety.TryPairGood` | hack/utilization-share-oscillation-sim.py:237-261 | so does trying one receiver and donor, and the working copy stays equal to the committed allocation |
| `PlannerCauses.PairsInOrder` | hack/utilization-share-oscillation-sim.py:230-234 | receivers are exactly the roles below their integer target, lowest z first; donors exactly those above it, above what they may give and above their floor, highest z first |
| `PlannerCauses.CounterIsStreak` | hack/utilization-share-oscillation-sim.py:213-222 | in every run the confirmation counter is the number of consecutive cycles in which the role, held minus gifts plus receipts, was out of band against its continuous target, off its integer target where the rule asks for it, and short or far enough off |
| `PlannerCauses.EveryTransferHasCause` | hack/utilization-share-oscillation-sim.py:213-261 | every transfer any run starts takes one replica, no larger than the donor's, from a role above its integer target, above what it may give and above its floor to one below its integer target, neither of them frozen or on hold; with the actionable rule one of the two was out of band and off its integer target in that cycle and in the one before |
| `PlannerCauses.CycleStartsExactly` | hack/utilization-share-oscillation-sim.py:223-261 | in every run a cycle starts a transfer exactly when some pair may: fewer than two in flight, some role confirmed, receiver below its integer target, donor above its own, above what it may give and its floor, replicas no smaller, one of the two confirmed, neither on hold or frozen, the smaller z rising, and the donor left at its target or in band |
| `PlannerCauses.RoleLimitNeverBinds` | hack/utilization-share-oscillation-sim.py:235-261 | the per-role counters of a pass count the role's transfers started in it, and the limit of two a role never binds beside the limit of two in flight |
| `PlannerCancels.CancelRound` | hack/utilization-share-oscillation-sim.py:184-205 | every transfer in flight gets one verdict, in order, against what is in flight at that moment; those with the donor too far below its target or the receiver well enough off, and not older than the window, are cancelled and the others stay |
| `PlannerCancels.EveryCancelHasCause` | hack/utilization-share-oscillation-sim.py:184-205 | in every run a cancelled transfer was in flight, had started at most WINDOW ago, and met that condition by the plan of that cycle |
| `PlannerCancels.CancelHolds` | hack/utilization-share-oscillation-sim.py:203-205 | with the hold rule a cancel holds both roles: no transfer that starts in the same or a later cycle brings the donor a replica or takes one from the receiver before HOLD has passed since the cancel |
| `PlannerMemory.RunRemembers` | hack/utilization-share-oscillation-sim.py:164-165 | in every run the planner has exactly the demand samples of the cycles within the horizon |
| `PlannerMemory.NeedDelivered` | hack/utilization-share-oscillation-sim.py:170-179 | in every run the need of cycle k is the mean demand of cycles k - 4 to k - 2, of those there are in the first cycles, and the demand of the moment in the first two; for a damped role the mean over the swing window |
| `PlannerMemory.GiveTarget` | hack/utilization-share-oscillation-sim.py:225-229 | with the slow-giving rule what a role may give follows its largest demand over the last HOLD seconds |
| `PlannerMemory.RunCounts` | hack/utilization-share-oscillation-sim.py:159-163 | the reported sums are, over every role and cycle, the need that was not served and the need, plain and weighted |
| `PlannerSwing.DampedExactly` | hack/utilization-share-oscillation-sim.py:262-269 | in every run a role is damped beyond T exactly when a transfer of it less than the swing window before T had, with those of the window before it, changed the role's direction twice |
| `Leximin.PairRaisesLex` | hack/utilization-share-oscillation-sim.py:250-253 | changing two entries so that the smaller of them rises makes the sorted vector lexicographically larger |
| `PlannerProgress.ImprovesLex` | hack/utilization-share-oscillation-sim.py:250-256 | an admitted transfer strictly improves the sorted vector of z values |
| `PlannerProgress.ArriveCommitted` | hack/utilization-share-oscillation-sim.py:148-157 | landing and filling leave the committed allocation as it is |
| `PlannerProgress.SteadyNeed` | hack/utilization-share-oscillation-sim.py:170-179 | constant demand is delivered to the planner as the same constant need, damped or not |
| `PlannerProgress.RunPath` | hack/utilization-share-oscillation-sim.py:207-259 | between any two cycles under constant demand without cancels the committed allocation climbs a path of strict improvements, one per transfer started |
| `PlannerProgress.SteadyRunSettles` | hack/utilization-share-oscillation-sim.py:207-259 | as long as nothing was cancelled, a run under constant demand with committed accounting starts fewer transfers than there are allocations, however long it is |
| `PlannerProgress.SteadyRunNeverRepeats` | hack/utilization-share-oscillation-sim.py:207-259 | once a transfer has started the committed allocation never comes back, and without one it does not change |
| `Simulation.LandLoop` | hack/utilization-share-oscillation-sim.py:148-154 | the landing loop lands exactly the due transfers |
| `Simulation.FillLoop` | hack/utilization-share-oscillation-sim.py:155-157 | the filling loop serves exactly the full replicas |
| `Simulation.CancelLoop` | hack/utilization-share-oscillation-sim.py:184-205 | the cancel loop over a snapshot, judging each transfer against the others still in flight |
| `Simulation.CommittedLoop` | hack/utilization-share-oscillation-sim.py:207-211 | adding and subtracting transfer by transfer gives held minus gifts plus receipts of every role |
| `Simulation.AdmitLoop` | hack/utilization-share-oscillation-sim.py:235-269 | the nested loop over receivers and donors is the admission pass the theorems are about |
| `Simulation.WastedLoop` | hack/utilization-share-oscillation-sim.py:272-275 | the number of landings after which, within RELEASE, another landing brings the donor a replica or takes one from the receiver |
| `Simulation.Simulate` | hack/utilization-share-oscillation-sim.py:128-276 | the simulator reports the landed, cancelled and undone transfers of the run of T_END / CYCLE cycles and the shares of the plain and the weighted need not served, or nothing when no need was asked for; with the hold its wasted figure is 0; in the floor case its shortfalls are between 0 and 1 |
| `FloorLimits.DonorCheckProtectsFloor` | hack/utilization-share-oscillation-sim.py:120-125 | the donor check refuses to go below a floor of whole replicas, for all needs and targets, if and only if the floor is at most one replica |
| `FloorLimits.LargerFloorBreaks` | hack/utilization-share-oscillation-sim.py:237-261 | for every replica size and every floor above it, with all rules on, the second cycle of a run promises away a replica the floor needs |
| `FloorLimits.FloorKeptExactly` | hack/utilization-share-oscillation-sim.py:184-261 | every run with the hold and committed rules, under any demand and budget, keeps a floor of whole replicas if and only if the floor is at most one replica |
| `FloorLimits.TwoReplicaFloorBreaks` | hack/utilization-share-oscillation-sim.py:237-261 | an instance: one-GPU replicas and a floor of two |
| `AcceleratorNames.FamilyHasNoHyphen` | internal/accelerator/family.go:22-24 | a name is a family exactly when it has no hyphen |
| `AcceleratorNames.ShortNames` | internal/accelerator/accelerator.go:25-73 | for every hyphenated name, in any case and whatever follows: two parts are short for the second; more are short for the second, the third for NVIDIA's Tesla family, and the second and third for Intel |
| `AcceleratorNames.NormalizeFold` | internal/accelerator/accelerator.go:25-73 | the short names of two case spellings are case spellings of each other |
| `AcceleratorNames.CoversPreorder` | internal/accelerator/family.go:41-43 | Covers is reflexive and transitive, and two names cover each other exactly when they are case spellings of one name |
| `AcceleratorNames.OneFamily` | internal/accelerator/family.go:34-36 | a product has one family up to case, is never a family, and has no products |
| `AcceleratorNames.UnlistedProductExact` | internal/accelerator/allowlist.go:176-184 | an unlisted product is found exactly for the names without a hyphen, and is a product of that family |
| `AcceleratorNames.TeslaSkipsTwoVendors` | internal/accelerator/allowlist.go:176-184 | for "tesla" the NVIDIA and Intel spellings are not products of it, and the AMD one is returned |
| `Allowlists.MinStep` | internal/accelerator/allowlist.go:188-197 | the minimum over a set of keys is the same whichever key is taken first |
| `Allowlists.SumStep` | internal/accelerator/allowlist.go:60-65 | and so is the sum |
| `Allowlists.Tighter` | internal/accelerator/allowlist.go:200-208 | the tighter of two bounds means the smaller of what they mean |
| `CatchAll.OneListExact` | internal/accelerator/allowlist.go:40-89 | for every name one allowlist does not bound it exactly when it is the catch-all and no key speaks of it, and else leaves what every covering key leaves, or the sum of its products, or nothing |
| `CatchAll.UnresolvedExact` | internal/accelerator/allowlist.go:74-139 | the merged bound on the catch-all, the placeholder and the empty name is the tightest of the allowlists, for the catch-all of those that speak of it, and absent when none does |
| `CatchAll.CatchAllBounded` | internal/accelerator/allowlist.go:80-89 | the catch-all is bounded exactly when some key equals it ignoring case or is a hyphenated name short for it |
| `Allowlists.AllowlistBoundLoop` | internal/accelerator/allowlist.go:40-72 | in any map order: the tightest of a name's own and family keys, else the sum of its products, else the tightest family key, else not listed |
| `Allowlists.ClusterAllowlistBoundLoop` | internal/accelerator/allowlist.go:80-89 | an unlisted name is bounded at 0, except the catch-all, which is then not bounded |
| `Allowlists.ClosesFamilyLoop` | internal/accelerator/allowlist.go:145-157 | true exactly for a resolved family that some allowlist does not list |
| `Allowlists.ClusterAllowlistsBoundLoop` | internal/accelerator/allowlist.go:103-139 | in any map order, with any choice of spelling for a product listed in several: the tightest bound, met with the sum over listed products when the family is closed |
| `Allowlists.TightestFold` | internal/accelerator/allowlist.go:104-115 | the tightest bound on a product does not depend on how the product is spelled |
| `AllowlistExact.BoundIsUpper` | internal/accelerator/allowlist.go:91-139 | no assignment of GPUs to products that respects every allowlist uses more of a resolved name than the merged bound |
| `AllowlistExact.BoundIsReached` | internal/accelerator/allowlist.go:91-139 | every number up to the bound is used by some assignment that respects every allowlist |
| `AllowlistExact.ClusterBoundExact` | internal/accelerator/allowlist.go:103-139 | the merged bound of a resolved family or product is n exactly when n is the most GPUs of that name a respecting assignment uses, and unlimited exactly when such assignments use arbitrarily many |
| `AllowlistExact.OneMoreNeverLoosens` | internal/accelerator/allowlist.go:103-157 | adding a cluster-wide allowlist never loosens the bound on any name, resolved or not and also with negative figures |
| `AllowlistExact.NewProductGetsNothing` | internal/accelerator/allowlist.go:145-157 | a product no allowlist listed is bounded at 0 by the one that closes the family |
| `Lexical.PrecedesExactly` | internal/accelerator/family.go:95-101 | the order of names: a proper beginning comes first, else the smaller character where two names first differ |
| `Lexical.LeastLoop` | internal/accelerator/family.go:101-109 | the lexically smallest of a list depends only on which names it holds |
| `BudgetKeys.FindBudgetKeyLoop` | internal/accelerator/family.go:75-104 | the lookup is independent of map order |
| `BudgetKeys.FindBudgetKeyExact` | internal/accelerator/family.go:45-104 | a product is spent from a family key only when no product of that family is a key, a family from a product key only when it is the one product listed, and with the case spellings these are exactly the names found |
| `BudgetKeys.FindBudgetKeyOrder` | internal/accelerator/family.go:71-104 | the exact key wins; else the lexically least key equal ignoring case; only without one the least spelling of the one product of a family, or of the family of a product |
| `BudgetKeys.OneSpellingLoop` | internal/accelerator/family.go:107-114 | comparing with the first name decides whether all are one name ignoring case |
| `BudgetKeys.FindKeyLoop` | internal/accelerator/identity.go:47-66 | the plain lookup is independent of map order |
| `BudgetKeys.FindKeyOrder` | internal/accelerator/identity.go:38-66 | the exact key wins, then the exact short name, then the lexically least of the keys that are the same name |
| `BudgetKeys.SameNameCovers` | internal/accelerator/identity.go:25-36 | names of which one covers the other are the same name, and where one is a family only those are |
| `BudgetKeys.BudgetKeyFound` | internal/accelerator/family.go:45-104 | every name the budget lookup finds the plain lookup finds too |
| `BudgetKeys.FindKeyExact` | internal/accelerator/identity.go:47-66 | the plain lookup finds a name exactly when some key is the same name, and returns such a key |
| `BudgetKeys.LookupsDiffer` | internal/accelerator/family.go:45-104 | the plain lookup finds and the budget lookup denies exactly, no case spelling being a key: a family with two different products listed; a product with its family key and a sibling listed; a product without a family key that is the same name as a key only through a short name with a hyphen |
| `BudgetKeys.IntelShortDenied` | internal/accelerator/family.go:75-104 | every Intel name of at least four parts is found under its two-part short name by the plain lookup and denied by the budget lookup |
| `BudgetKeys.SiblingDenied` | internal/accelerator/family.go:45-62 | a product beside a listed sibling is denied by the budget lookup although the plain lookup hands it the family key, or a key that is the same name through a short name with a hyphen |
| `ResourceSeries.ClipLoop` | hack/benchmark/two_model_report.py:255-290 | the clipping loop, with its early exit |
| `ResourceSeries.IntegrateLoop` | hack/benchmark/two_model_report.py:234-252 | the value-seconds of a series, and the seconds in holes longer than the limit; no total for fewer than two rows |
| `ResourceSeries.HolesAreTheRest` | hack/benchmark/two_model_report.py:234-252 | the seconds in holes longer than the limit and the seconds sampled more closely make up the whole span |
| `ResourceSeries.ClipHeld` | hack/benchmark/two_model_report.py:255-290 | at every instant of the window the clipped series holds what the series holds |
| `ResourceSeries.ClippedIntegral` | hack/benchmark/two_model_report.py:234-290 | clipping and integrating gives the integral over [0, end] of the step function that holds each sample until the next, for every partition fine enough to see the samples, and has an answer whenever a sample lies before the end, also when all lie outside the window |
| `Schedules.BuildLoop` | hack/benchmark/two_model_profile.py:66-125 | the nested loops build lead-in, bursts in turn and a band between any two |
| `Schedules.StageMapLoop` | hack/benchmark/two_model_profile.py:139-168 | the cutting loop |
| `Schedules.StagesSameLoad` | hack/benchmark/two_model_profile.py:139-168 | for every schedule the stages run the schedule's rates at every instant |
| `Schedules.ScheduleSound` | hack/benchmark/two_model_profile.py:66-168 | the stages of a generated schedule tile the run from 0 to lead-in plus all bursts plus the bands, carry its rates at every instant and never put both models above the low rate |
| `Schedules.StagesAre` | hack/benchmark/two_model_profile.py:139-168 | on a generated schedule the lead-in and every band are stages of their own, and exactly the bursts that do not open the run and are longer than the rise window are cut, at that window |
| `Schedules.RiseStagesLoop` | hack/benchmark/two_model_report.py:83-104 | the stages where a model's rate went up |
| `Schedules.RisesAreOpenings` | hack/benchmark/two_model_report.py:83-104 | on a generated schedule these are exactly the openings of that model's bursts, each as long as the rise window or the whole burst if shorter, a burst that opens the run excepted |
| `AntiPhase.BurstOverlapLoop` | hack/benchmark/two_model_report.py:631-684 | the pairwise intersections of the bursts by each model's own clock, or nothing when a stage reported no time |
| `AntiPhase.PhaseDriftLoop` | hack/benchmark/two_model_report.py:687-716 | the largest distance of the two clocks at a stage end, or nothing when a stage reported no time |
| `AntiPhase.OverlapIsMeasure` | hack/benchmark/two_model_report.py:631-684 | the pairwise sum is the measure of the time at which both models are at their high rate |
| `AntiPhase.DriftWithinBands` | hack/benchmark/two_model_report.py:631-716 | on a generated schedule with bands, a drift of at most D and bands of at least D by both clocks leave no instant at which both burst |
| `AntiPhase.BandsPreventOverlap` | hack/benchmark/two_model_report.py:631-716 | the same of the two reported figures |
| `AntiPhase.NoDriftNoOverlap` | hack/benchmark/two_model_report.py:687-716 | without drift there is no overlap, bands or not |
| `AntiPhase.NoBandsNoSafety` | hack/benchmark/two_model_profile.py:66-86 | on every schedule of two or more bursts without bands, with or without a lead-in and however it is cut, and for every D above 0: a run in which one stage of each model takes D longer than planned drifts by exactly D and overlaps by exactly D |
| `HereDocument.HereDocumentRoundTrip` | hack/render-warmpool-spec.py:148-165 | for every clean text, doubling the backslashes and expanding an unquoted here-document (sections 2.2.3 and 2.7.4 of the POSIX Shell Command Language) is substituting the placeholders |
| `HereDocument.SingleBackslash` | hack/render-warmpool-spec.py:148-164 | why the backslashes are doubled: a single one takes a line end along, hides a dollar or backtick, swallows a second one, and stays before anything else |
| `HereDocument.CarriedExactly` | hack/render-warmpool-spec.py:140-165 | a clean text without blank lines also survives the shell that drops blank lines, line for line, for values that are not blank and have no line end |
| `PlaceholderGuard.ScrubLoop` | hack/render-warmpool-spec.py:173-175 | the loop that removes one placeholder after another |
| `PlaceholderGuard.CleanPassesGuard` | hack/render-warmpool-spec.py:173-183 | the guard refuses no text in which every dollar starts a placeholder and there is no backtick |
| `PlaceholderGuard.GuardExact` | hack/render-warmpool-spec.py:173-183 | on a text in which no placeholder stands directly behind a proper beginning of one, the guard passes exactly the texts in which every dollar starts a placeholder and there is no backtick |
| `PlaceholderGuard.NestingPasses` | hack/render-warmpool-spec.py:173-183 | of two placeholders of which none is the beginning of another, one put anywhere inside the other never makes a safe text, and the guard passes it exactly if the inner one is removed first |
| `PlaceholderGuard.GuardExactlyForOne` | hack/render-warmpool-spec.py:173-183 | the guard is exact on all texts if and only if there is at most one placeholder |
| `PlaceholderGuard.GuardMissesNesting` | hack/render-warmpool-spec.py:48-53 | an instance of the shipped list: the GPU count inside the memory placeholder |
| `PodSpecText.BlankSeen` | hack/render-warmpool-spec.py:140-146 | whenever the shell would find a blank line, the line test of the generator, which splits at more characters and strips more, finds one too |
| `PodSpecText.PrintableRefusals` | hack/render-warmpool-spec.py:140-146 | on printable text the generator's lines are the shell's, and it finds exactly those blank that the shell would drop |
| `PodSpecText.AsYamlLoop` | hack/render-warmpool-spec.py:140-184 | the guards of the generator: refuses a blank line and an unaccounted dollar or backtick, else returns the escaped text |
| `PodSpecText.CleanDouble` | hack/render-warmpool-spec.py:148-175 | escaping neither makes nor hides what the shell would expand, so the guard may look at the escaped text |
| `PodSpecText.AsYamlExact` | hack/render-warmpool-spec.py:140-184 | a text in which no placeholder splits one is accepted exactly when it is clean and none of its lines is blank |
| `PodSpecText.AsYamlCarried` | hack/render-warmpool-spec.py:140-184 | what is emitted for such a text, in front of the delimiter line of the here-document and whatever follows it, arrives as exactly the text's lines with the placeholders replaced if and only if no line of the text is the delimiter |
| `GeneratedBlock.ReplaceIdempotent` | hack/render-warmpool-spec.py:272-280 | everything before the start marker and after the end marker is kept, the block is between, and doing it twice is doing it once if and only if the end marker comes after the start marker |
| `GeneratedBlock.FramedExactly` | hack/render-warmpool-spec.py:42-43 | markers whose first character recurs in neither form such a block around a body if and only if the body has no end marker |
| `GeneratedBlock.ShippedMarkers` | hack/render-warmpool-spec.py:42-43 | the shipped markers do |
| `Readiness.ProbeReportsLatest` | cmd/main.go:1423-1447 | over every sequence of probes the report is the latest definite answer, and "unanswered" exactly before the first; other errors never change it |
| `Readiness.ProbeRecovers` | cmd/main.go:1399-1447 | if every listing that completes from T on succeeds, every probe from T + TTL on is ready |
| `Readiness.RecoveryTakesTheTTL` | cmd/main.go:1426-1428 | a denial cached just before T is still reported just before T + TTL |
| `Readiness.DenialLastsTheTTL` | cmd/main.go:1426-1428 | after a denial a probe met by a granting server is ready exactly from the TTL on |
| `Readiness.FailureWaitsTheTTL` | cmd/main.go:1441-1445 | an error that is not about authorization also postpones the next listing by the TTL |
| `Readiness.GateExactly` | cmd/main.go:1307-1374 | over every sequence of checks: ready unless a physical limiter stands alone and the API server's latest definite answer is not a grant; a denial is published exactly while a composed policy is in force and that answer is the denial |
| `Readiness.LogsChanges` | cmd/main.go:1346-1374 | over every sequence of checks one line is logged per change |
| `Readiness.CheckHonest` | cmd/main.go:1346-1374 | one readiness check keeps what is published equal to the API server's own denial, and logs exactly when that changes |
| `Readiness.GateHonest` | cmd/main.go:1307-1374 | over every sequence of checks and policies a composed policy is never not ready, a physical limiter alone is ready exactly on a granted read, and a composed policy publishes denials only, never a missing answer |
| `Readiness.ReadinessGate.NodeReadProbe` | cmd/main.go:1423-1447 | the probe updates the cached verdict and its time as the run theorems assume, and nothing else |
| `Readiness.ReadinessGate.ReportComposed` | cmd/main.go:1346-1374 | the published state and the log counter after a report |
| `Readiness.ReadinessGate.GpuPolicyReady` | cmd/main.go:1307-1330 | the error of one readiness check and the whole state after it |
| `OptimizeCycles.AssignLoop` | hack/benchmark/dump_k2_decisions.py:207-232 | the clustering loop |
| `OptimizeCycles.AssignPartitions` | hack/benchmark/dump_k2_decisions.py:207-232 | the groups are the events again, in order, none empty |
| `OptimizeCycles.GroupsStartAtGaps` | hack/benchmark/dump_k2_decisions.py:207-232 | a group starts at the first event and exactly where two neighbouring time stamps are more than the gap apart |
| `OptimizeCycles.MergedExactly` | hack/benchmark/dump_k2_decisions.py:235-252 | clustering merges cycles exactly when two events once per the same thing have no two neighbours more than the gap apart between them |
| `OptimizeCycles.MergedIsLinked` | hack/benchmark/dump_k2_decisions.py:235-252 | the same, read off the runs of events |
| `OptimizeCycles.NarrowerMergesLess` | hack/benchmark/dump_k2_decisions.py:255-270 | a narrower gap never merges what a wider one keeps apart |
| `OptimizeCycles.ResolveLoop` | hack/benchmark/dump_k2_decisions.py:255-279 | narrowing terminates, ends unmerged if and only if the smallest gap can separate the cycles, and a gap twice as wide as the one it settled on would still have merged |

## Left out

- Kubernetes, Prometheus, gRPC and manager wiring, and the collector, actuator and controller packages: input and output around the logic modelled here.
- The production optimizer (`internal/engines/allocation`): the planner modelled is the simulator that states its rules.
- The node-affinity and product-label readers of `internal/accelerator/accelerator.go`, and `ListsProduct`: lookups that would only add easy members.
- Floating-point rounding, random number generators, the shipped scenarios and their percentages.
- Unicode case folding; names are folded as ASCII.
- AllowlistExact.ClusterBoundExact: assumes that no finite bound is negative, because a negative figure leaves no assignment at all; the one caller that passes negative figures uses only differences of bounds. It speaks of resolved names; the catch-all and the placeholder have no products.
- PlannerSafety.RunKeepsFloors: asks for floors of no or one replica, because the code does not keep larger ones.
- AntiPhase.OverlapIsMeasure: asks for elapsed times that are not negative.
- YAML dumping, the two conditional lines in front of the text in the here-document and the indentation behind it: the model starts from the dumped text and a here-document that holds it alone.
- Locales: the shell's blank lines are those of the POSIX locale's space class.
- PodSpecText.AsYamlCarried: says nothing of an accepted text in which a placeholder stands behind the beginning of one, because the guard does not look for it; asks for values that are not blank and have no line end.
- The row builders, tables and plots of the benchmark scripts.
