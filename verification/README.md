# Verified numerics and state machines of an autonomous driving stack

A Dafny model of the parts of the stack whose correctness rests on arguments that no single function shows: the
assignment solver of the object fusion, the numerics of the lateral model predictive controller, ear clipping of map
polygons, the longitudinal controller and the vehicle interface's safety machine, and two estimation loops. Each
file holds one module; arithmetic is exact (`real`, `int`), not floating point.

- `HungarianSteps`, `HungarianInvariants`, `HungarianPhase`, `HungarianAugment`, `HungarianSolve`: the assignment
  algorithm on values, its invariants, and what a run guarantees. `HungarianAssigner`: the class with its buffers,
  changed cell by cell, proved to perform that algorithm. `HungarianGuard`, `HungarianExchange`, `HungarianOptimality`
  and `HungarianStaleZero`: when the result is optimal, and an input on which it is not.
- `MpcPrediction`, `MpcCost`, `SteerWeights`, `MpcMatrices`, `MpcProgram`: condensation of the time-varying system into
  one quadratic program. `MpcTrajectories` and `MpcCycle`: the trajectory columns and the guards of one control cycle.
- `HungarianFacts`, `MpcEntries`, `MpcCycleFacts`: the steps, entries and stages of these in plain terms.
- `Interpolation`, `Spline`, `CscConversion`: linear and spline interpolation and the sparse encoding.
- `EarClipping`, `LongitudinalControl`, `SafetyStateMachine`, `SmoothStop`, `LowpassFilter`: as their names say.
- `Sums`, `Reals`, `Matchings`, `LinearAlgebra`, `QuadraticForms`: shared mathematics.

`dafny verify dfyconfig.toml` checks everything.

## What the code does differently from its documentation

- `assign` is documented to be false when no assignment is found. `reset` fills the marks with UNMARKED and the weights
  with the maximum 10000, so no cell is ever without a link and `assign` always returns true; `get_assignment` hides
  rows that were left with an unset cell.
- `assign` is not optimal in general. `add_new_zero` leaves zero marks on cells under two covers whose weight it raises,
  and such a stale zero can be primed and starred later. `HungarianStaleZero.NotAlwaysOptimal` gives an input.
  `HungarianGuard` follows the guard of that step: marks stay zero exactly while it holds, the result meets its bound
  exactly when no row took a stale zero, and `HungarianExchange.OptimalIff` says exactly when the result is optimal all
  the same. `HungarianOptimality.RowMinimaIff` is about a condition on the weights alone.
- The cost comment of the predictive controller weighs the states; the code weighs the outputs. The steering weights are
  added to R1ex, so they weigh rates and accelerations of the deviation from the reference input, and previous
  commands count as 0: the correction of the linear term returns at once because that term has one row.
- Low-curvature weights of steering rate and acceleration exist, but the code never reads them: these two weights are the
  normal ones at every curvature.
- The prediction loop uses the driving direction left by the previous cycle; it is 0 before the first, which makes
  every curvature of the first cycle 0.
- The time check of `getData` counts the input delay twice.
- A parameter update to an input delay that is a whole number of control periods keeps the old input buffer.
- `isAcuteAngle` holds for a clockwise or straight turn, of any angle below a half turn. So ears only add up to a
  clockwise polygon, and of a counter-clockwise one the pockets outside are clipped (`EarClipping.DartIsOvercovered`).
- STATE_TRANSITION_TIMEOUT is also reported for a request that the very same report satisfies.
- Spline interpolation of fewer than two values throws instead of returning false.

## Modelling decisions

- Vehicle models, square roots, wrapped angles and clock readings are arbitrary: functions or parameters, lengths only
  non-negative. Each call of a clock is a reading of its own.
- A float-maximum sentinel is the absence of a bound. A row minimum is the first least entry over all columns of the
  buffer, as the matrix library's `minCoeff` gives it.
- The large matrices of the controller are kept by blocks, off-diagonal zero blocks included; the input is scalar.
- The message codes are datatypes with a constructor for unknown codes. The message definitions are not part of this
  model; a value-initialised request is taken to be no command.
- The predictive controller's object is modelled in two: `Mpc` holds what the matrices need, `Cycle` the input delay
  and buffer and the stages before them.
- The height of polygon points is dropped; no decision depends on it.

## Model

| member | source | states |
|---|---|---|
| `HungarianAssigner.Assigner.Assign` | src/fusion/hungarian_assigner/src/hungarian_assigner.cpp:165-202 | for any weights, including unset cells, the in-place algorithm returns true, never reaches a throw, and ends in a state the value-level algorithm gives for the same input; the assignment is a permutation of the columns |
| `HungarianSolve.SolveEnds` | src/fusion/hungarian_assigner/src/hungarian_assigner.cpp:184-199 | from any settled state with a feasible dual the passes terminate, and their number is exactly the number of rows still without a star |
| `HungarianSolve.PassAddsStar` | src/fusion/hungarian_assigner/src/hungarian_assigner.cpp:186-193 | one pass of the loop raises the number of starred rows by exactly one and keeps stars a matching and the reduced weights a feasible dual |
| `HungarianSolve.SolveKeeps` | src/fusion/hungarian_assigner/src/hungarian_assigner.cpp:165-202 | over a whole run: the final stars are a permutation, the final weights are non-negative and differ from the given ones by row and column potentials |
| `HungarianSolve.SolveUnique` | src/fusion/hungarian_assigner/src/hungarian_assigner.cpp:165-202 | the scans make every run deterministic: two runs from one state end in one state after equally many passes |
| `HungarianSolve.MinimaUnique` | src/fusion/hungarian_assigner/src/hungarian_assigner.cpp:155-161 | the first minima of the rows are determined, so the result of a matrix is |
| `HungarianSolve.InitialDual` | src/fusion/hungarian_assigner/src/hungarian_assigner.cpp:235-272 | row reduction, greedy starring and padding leave a settled matching and a feasible dual |
| `HungarianSolve.ResultIsPermutation` | src/fusion/hungarian_assigner/src/hungarian_assigner.cpp:165-202 | any result is settled, dual feasible and a permutation of the columns |
| `HungarianSolve.Certificate` | src/fusion/hungarian_assigner/src/hungarian_assigner.cpp:399-423 | against any other assignment of the rows to distinct columns, the gap in original cost equals the gap in reduced cost of its completion, so the result costs at most the other plus the reduced weight left on its own stars |
| `HungarianGuard.StaleFreeIff` | src/fusion/hungarian_assigner/src/hungarian_assigner.cpp:399-423 | one step leaves a marked cell at positive weight exactly when no uncovered zero was found, the minimum added is positive and some marked cell lies under two covers |
| `HungarianGuard.StepKeptUp` | src/fusion/hungarian_assigner/src/hungarian_assigner.cpp:355-423 | a cell once marked stays marked and its weight never falls, so a stale zero never heals |
| `HungarianGuard.NeverStaleIff` | src/fusion/hungarian_assigner/src/hungarian_assigner.cpp:165-202 | over a whole run: every mark ends at reduced weight zero if and only if that guard held at every step of every pass |
| `HungarianGuard.StaleRowIff` | src/fusion/hungarian_assigner/src/hungarian_assigner.cpp:399-462 | a row of the result keeps reduced weight on its star exactly when that cell was a stale zero at the step that primed it |
| `HungarianGuard.ExcessIff` | src/fusion/hungarian_assigner/src/hungarian_assigner.cpp:165-202 | the result meets its dual bound with equality if and only if no row took a stale zero |
| `HungarianGuard.NeverStaleIsOptimal` | src/fusion/hungarian_assigner/src/hungarian_assigner.cpp:165-202 | a run in which the guard held throughout is optimal |
| `HungarianExchange.OptimalIff` | src/fusion/hungarian_assigner/src/hungarian_assigner.cpp:165-202 | the exact condition: the result is optimal if and only if no cyclic exchange of columns that takes in a row starred on a stale zero lowers the cost of the given weights; exchanges among all other rows never need looking at |
| `HungarianExchange.ExchangesSuffice` | src/fusion/hungarian_assigner/src/hungarian_assigner.cpp:165-202 | if no exchange that takes in a row with weight on its star lowers the cost, no permutation costs less: any other one is undone cycle by cycle |
| `HungarianExchange.ExchangeReduced` | src/fusion/hungarian_assigner/src/hungarian_assigner.cpp:399-423 | around a cycle the row and column potentials cancel, so an exchange costs the same in given and reduced weights |
| `HungarianOptimality.RowMinimaIff` | src/fusion/hungarian_assigner/src/hungarian_assigner.cpp:155-202 | the result puts every row at a row minimum if and only if some assignment to distinct columns does, a condition a caller can check beforehand; then no zero ever went stale and the result is optimal |
| `HungarianOptimality.PermutationUncovered` | src/fusion/hungarian_assigner/src/hungarian_assigner.cpp:276-395 | while a phase is running, no permutation lies entirely in covered rows and columns |
| `HungarianOptimality.StepTight` | src/fusion/hungarian_assigner/src/hungarian_assigner.cpp:355-423 | while a permutation of zero weights exists, a step changes no weight: no stale zero can arise |
| `HungarianStaleZero.NotAlwaysOptimal` | src/fusion/hungarian_assigner/src/hungarian_assigner.cpp:399-449 | a 4 by 5 input on which the result costs 3 although 2 is possible: a zero mark left on a doubly covered cell is primed later |
| `HungarianStaleZero.ResultOfBase` | src/fusion/hungarian_assigner/src/hungarian_assigner.cpp:165-202 | that input has a result: the traced run from reduction to the last star |
| `HungarianStaleZero.AssignMisses` | src/fusion/hungarian_assigner/src/hungarian_assigner.cpp:165-202 | every assigner given that input pays 3 after assign has run |
| `HungarianPhase.AddZeroKeepsDual` | src/fusion/hungarian_assigner/src/hungarian_assigner.cpp:399-423 | adding the least uncovered weight to covered rows and subtracting it from uncovered columns keeps every weight non-negative and a row and column shift of the given ones |
| `HungarianPhase.StepWeights` | src/fusion/hungarian_assigner/src/hungarian_assigner.cpp:355-423 | a step keeps the dual and leaves the weight of every starred and primed cell as it was |
| `HungarianInvariants.StepPrimes` | src/fusion/hungarian_assigner/src/hungarian_assigner.cpp:368-393 | one priming step keeps all cover, star and prime invariants, including that a star sharing a prime's column lies in an earlier prime's row, or ends the phase |
| `HungarianPhase.PrimesBound` | src/fusion/hungarian_assigner/src/hungarian_assigner.cpp:370-376 | fewer primes than columns exist while a phase runs, so the throw for more primes than columns is unreachable |
| `HungarianPhase.PhaseEnds` | src/fusion/hungarian_assigner/src/hungarian_assigner.cpp:355-395 | every phase ends, within as many steps as there are columns, in a star-free row |
| `HungarianPhase.PhaseKeeps` | src/fusion/hungarian_assigner/src/hungarian_assigner.cpp:355-395 | over a whole phase: at most one prime a row, only the last in a star-free row; stars, assignment, dual and marked weights are kept |
| `HungarianPhase.PhaseUnique` | src/fusion/hungarian_assigner/src/hungarian_assigner.cpp:355-395 | a phase is deterministic in its end state, its last cell and its length |
| `HungarianAugment.PathAlternates` | src/fusion/hungarian_assigner/src/hungarian_assigner.cpp:284-315 | from any listed prime the walk alternates primes and stars, finds a prime in each star's row and visits no cell twice |
| `HungarianAugment.PathEndsFree` | src/fusion/hungarian_assigner/src/hungarian_assigner.cpp:284-299 | the walk ends at a prime in a column without a star |
| `HungarianAugment.EnteredByStar` | src/fusion/hungarian_assigner/src/hungarian_assigner.cpp:302-315 | every prime on the path but the first is entered from the star of its own row |
| `HungarianAugment.AugmentSettles` | src/fusion/hungarian_assigner/src/hungarian_assigner.cpp:317-345 | after the flip the stars are a matching that agrees with the assignment, the covers are the starred columns and no prime is left |
| `HungarianAugment.AugmentAddsOneRow` | src/fusion/hungarian_assigner/src/hungarian_assigner.cpp:317-326 | the flip stars exactly one row more, that of the last prime, and unstars none |
| `HungarianAssigner.Assigner.PrimeUncoveredZero` | src/fusion/hungarian_assigner/src/hungarian_assigner.cpp:355-395 | the loop over the buffers performs exactly a phase, within numCols steps |
| `HungarianAssigner.Assigner.AddNewZero` | src/fusion/hungarian_assigner/src/hungarian_assigner.cpp:399-423 | the two in-place sweeps give the specified reduced weights and one new zero mark, or change nothing when nothing is uncovered |
| `HungarianAssigner.Assigner.FindUncoveredZero` | src/fusion/hungarian_assigner/src/hungarian_assigner.cpp:438-462 | true exactly when an uncovered zero or prime exists, and then the first in row-major order |
| `HungarianAssigner.Assigner.FindMinimumUncoveredValue` | src/fusion/hungarian_assigner/src/hungarian_assigner.cpp:466-491 | the first least uncovered cell in row-major order, if any cell is uncovered |
| `HungarianAssigner.Assigner.FindMinimums` | src/fusion/hungarian_assigner/src/hungarian_assigner.cpp:156-161 | the first least weight of every row |
| `HungarianFacts.TakenZero` | src/fusion/hungarian_assigner/src/hungarian_assigner.cpp:438-462 | with a marked zero uncovered, the first of these in row-major order is taken |
| `HungarianFacts.TakenMinimum` | src/fusion/hungarian_assigner/src/hungarian_assigner.cpp:466-491 | without one, the least uncovered weight, and of equal ones the first |
| `HungarianFacts.ShiftedEntry` | src/fusion/hungarian_assigner/src/hungarian_assigner.cpp:399-423 | what the shift makes of every weight and mark |
| `HungarianFacts.PrimedEntry` | src/fusion/hungarian_assigner/src/hungarian_assigner.cpp:355-393 | what a step makes of every mark and cover, and that a step with a zero at hand changes no weight |
| `HungarianFacts.FlippedEntry` | src/fusion/hungarian_assigner/src/hungarian_assigner.cpp:317-345 | what the flip makes of every mark and cover |
| `HungarianFacts.ReducedEntry` | src/fusion/hungarian_assigner/src/hungarian_assigner.cpp:235-243 | every weight and mark after the reduction |
| `HungarianFacts.StarredMinimum` | src/fusion/hungarian_assigner/src/hungarian_assigner.cpp:243-256 | a row's minimum is starred in a free column and becomes a mere zero in a taken one |
| `HungarianFacts.StarredFree` | src/fusion/hungarian_assigner/src/hungarian_assigner.cpp:257-267 | a padding row stars the first free column |
| `HungarianAssigner.Assigner.BuildPath` | src/fusion/hungarian_assigner/src/hungarian_assigner.cpp:280-315 | the buffer receives exactly the alternating path from the last prime; the missing-prime throw is unreachable and the buffer is never overrun |
| `HungarianAssigner.Assigner.IncrementStarredZeroesAndCheckResult` | src/fusion/hungarian_assigner/src/hungarian_assigner.cpp:276-349 | path, flip, covers and erased primes together give the augmented state; the answer says whether every column is starred |
| `HungarianAssigner.Assigner.ReduceRowsAndInitZerosAndCheckResult` | src/fusion/hungarian_assigner/src/hungarian_assigner.cpp:235-272 | the in-place reduction and starring give the specified initial state |
| `HungarianAssigner.Assigner.RunPasses` | src/fusion/hungarian_assigner/src/hungarian_assigner.cpp:186-193 | the bounded loop suffices: it always ends with every column covered |
| `HungarianAssigner.Assigner.SetWeight` | src/fusion/hungarian_assigner/src/hungarian_assigner.cpp:110-125 | a cell outside the matrix or a weight of at least the maximum is refused; otherwise exactly that cell of the three matrices changes, and an assigner ready for assign stays so |
| `HungarianAssigner.Assigner.SetSize` | src/fusion/hungarian_assigner/src/hungarian_assigner.cpp:91-106 | which sizes are refused and how, which assignments are cleared, and that a blank assigner becomes ready |
| `HungarianAssigner.Assigner.GetAssignment` | src/fusion/hungarian_assigner/src/hungarian_assigner.cpp:207-218 | a range error exactly beyond the real rows; unassigned exactly for a row without a column or left with a cell nobody set; otherwise a column whose weight was set and that no other row has |
| `HungarianAssigner.Assigner.GetUnassigned` | src/fusion/hungarian_assigner/src/hungarian_assigner.cpp:222-229 | a range error exactly beyond the padding rows; once rows have columns of their own the answer is a column no real row has |
| `HungarianAssigner.FreeColumns` | src/fusion/hungarian_assigner/src/hungarian_assigner.cpp:222-229 | the columns no real row has are exactly those of the padding rows, each of a single one |
| `HungarianAssigner.ColumnsPartition` | src/fusion/hungarian_assigner/src/hungarian_assigner.cpp:207-229 | the columns of the real rows and those of the padding rows split all columns between them |
| `MpcPrediction.Condensed` | src/control/trajectory_follower/src/mpc.cpp:561-606 | for every initial state and input sequence, block i of Aex x0 + Bex U + Wex is the state after i + 1 steps of the time-varying system |
| `MpcMatrices.Mpc.FillMatrices` | src/control/trajectory_follower/src/mpc.cpp:533-621 | the prediction loop fills exactly the blocks of the condensed problem, the output weights and the reference inputs |
| `MpcMatrices.Mpc.AddLateralJerk` | src/control/trajectory_follower/src/mpc.cpp:623-631 | the jerk loop adds to the quadratic form exactly the weighted squares of vx times the steering step over the period, under the driving direction each step sees, and leaves that direction in the field |
| `MpcMatrices.Mpc.GenerateMPCMatrix` | src/control/trajectory_follower/src/mpc.cpp:526-636 | all matrices are those of the stated problem; R1ex weighs inputs, rates and accelerations, R2ex lateral jerks, both symmetric |
| `MpcEntries.OutputWeights` | src/control/trajectory_follower/src/mpc.cpp:566-586 | the entries of Qex for a step: the low-curvature fields while the curvature in driving direction is strictly below the threshold, else the normal ones, terminal weights at the last step, the velocity term on the heading error, zeros elsewhere |
| `MpcEntries.OffDiagonalBlocks` | src/control/trajectory_follower/src/mpc.cpp:533-608 | blocks of two different steps are zero in Cex and Qex |
| `MpcEntries.ModelOfStep` | src/control/trajectory_follower/src/mpc.cpp:562-620 | the vehicle model is asked with the velocity, the signed curvature and the period; the reference input comes from the smoothed curvature and is dropped strictly below the threshold angle |
| `MpcEntries.InputsInFull` | src/control/trajectory_follower/src/mpc.cpp:577-588 | R1ex in plain terms: each squared input by the input weight and the squared-velocity weight of the set its curvature selects, and the steering cost |
| `MpcEntries.SteerCostInFull` | src/control/trajectory_follower/src/mpc.cpp:719-762 | that steering cost: squared rates over the period, squared second differences over its square, and the three boundary terms over the control period |
| `MpcEntries.JerksInFull` | src/control/trajectory_follower/src/mpc.cpp:623-631 | R2ex in plain terms: squared lateral jerks by the jerk weight of the set the curvature selects under the direction the loop sees there |
| `MpcEntries.SignAfterExact` | src/control/trajectory_follower/src/mpc.cpp:625-626 | that direction: the sign of the last velocity beyond a thousandth, or the one before the loop |
| `MpcEntries.NormalUnread` | src/control/trajectory_follower/src/mpc.cpp:566-631 | on a reference whose curvature stays below the threshold, two parameter sets that differ only in the normal weights give equal matrices |
| `MpcEntries.LowCurvatureUnread` | src/control/trajectory_follower/src/mpc.cpp:566-631 | on one that never goes below it, two that differ only in the low-curvature weights do |
| `MpcEntries.FormDetermines` | src/control/trajectory_follower/src/mpc.cpp:526-636 | symmetric matrices are determined by their quadratic forms, so what R1ex and R2ex weigh says what they are |
| `MpcEntries.StateStep` | src/control/trajectory_follower/src/mpc.cpp:561-606 | a state component by component: row of Ad times the state before, plus input times Bd, plus Wd |
| `MpcEntries.CostInFull` | src/control/trajectory_follower/src/mpc.cpp:638-641 | the cost with every output weight written out, terminal weights at the last step |
| `MpcCost.CostIdentity` | src/control/trajectory_follower/src/mpc.cpp:638-683 | for every input sequence the cost over the states it really leads to equals U'HU + 2fU plus a part that does not depend on U |
| `MpcCost.SamePreference` | src/control/trajectory_follower/src/mpc.cpp:674-698 | the program handed to the solver prefers one sequence to another exactly when the cost does |
| `MpcCost.HNonNegative` | src/control/trajectory_follower/src/mpc.cpp:674-681 | H is a sum of weighted squares and the two input forms, hence non-negative when they are |
| `MpcProgram.SetUpOptimization` | src/control/trajectory_follower/src/mpc.cpp:660-698 | the built H is that of the problem and symmetric, the objective represents the cost, and feasibility is exactly the steering limit, the rate limit and the rate limit from the previous command |
| `MpcProgram.UpperIsWhole` | src/control/trajectory_follower/src/mpc.cpp:678-681 | mirroring the computed upper triangle gives the whole matrix |
| `MpcProgram.FeasibleIff` | src/control/trajectory_follower/src/mpc.cpp:638-659 | the bounds and the difference matrix admit exactly the sequences within the limits |
| `MpcProgram.LimitsExact` | src/control/trajectory_follower/src/mpc.cpp:690-695 | the limits with every product written out: the rate limit times the period inside the horizon, times the control period from the previous command |
| `MpcProgram.SolverPrefers` | src/control/trajectory_follower/src/mpc.cpp:674-698 | the objective handed over, u'Hu / 2 + f u, orders input sequences as the cost does |
| `MpcProgram.OptimumIff` | src/control/trajectory_follower/src/mpc.cpp:660-698 | an input sequence is an optimum of the program if and only if none within the limits costs less |
| `MpcProgram.ConvexProgram` | src/control/trajectory_follower/src/mpc.cpp:719-762 | with non-negative weights the matrix handed to the solver is positive semidefinite for every horizon, trajectory and vehicle model |
| `MpcProgram.CostMeaning` | src/control/trajectory_follower/src/mpc.cpp:638-683 | the cost in plain terms; the steering weights act on the deviation from the reference input, because they are added to R1ex |
| `SteerWeights.AddSteerWeightR` | src/control/trajectory_follower/src/mpc.cpp:719-762 | adds to the form of every vector exactly the weighted squared rates, accelerations and boundary terms, with previous commands taken as 0, and keeps symmetry; below a horizon of 2 it adds nothing |
| `SteerWeights.AddSteerRates` | src/control/trajectory_follower/src/mpc.cpp:726-737 | the rate blocks and the corner for the first rate |
| `SteerWeights.AddSteerAccs` | src/control/trajectory_follower/src/mpc.cpp:739-761 | the acceleration blocks and the corners for i = 1 and i = 0 |
| `SteerWeights.CornerSecondAcc` | src/control/trajectory_follower/src/mpc.cpp:752-757 | the four corner entries at i = 1 are a rank-one term: the squared acceleration between the first rate and the rate from the previous command |
| `SteerWeights.SteerCostNonNegative` | src/control/trajectory_follower/src/mpc.cpp:719-762 | what is added is never negative for non-negative weights |
| `MpcCycle.Cycle.PrepareCycle` | src/control/trajectory_follower/src/mpc.cpp:39-78 | accepted exactly when the filtered reference has a point near that passes the error limits and the time check, the nearest point being that of the reference; then, whatever the reference, neither the delay compensation nor the resampling fails, each of the eight resampled columns has exactly one value a prediction step, and state and columns are those of the filtered reference at the right times |
| `MpcCycle.Cycle.QueriesAnswered` | src/control/trajectory_follower/src/mpc.cpp:311-323 | on a sorted time column that starts by the nearest time, the time check covers every query of the delay compensation and of the resampling |
| `MpcCycle.FilteredTimes` | src/control/trajectory_follower/src/mpc.cpp:495-519 | the filtered trajectory's columns have one length and its times start at 0 and never decrease |
| `MpcCycle.Cycle.ApplyVelocityDynamicsFilter` | src/control/trajectory_follower/src/mpc.cpp:495-519 | smoothed from the nearest point, stopped at the end, one point appended far in the future; unchanged when no point is near |
| `MpcCycleFacts.FilteredEnd` | src/control/trajectory_follower/src/mpc.cpp:507-518 | every column gains its last entry, the last two velocities are 0, and the last time is the prediction time and 100 s on |
| `MpcCycleFacts.FilteredVelocities` | src/control/trajectory_follower/src/mpc.cpp:500-510 | the velocities before the nearest point stay, there the measured one is put, and each later one is a smoothing step from the one before |
| `MpcCycle.Cycle.GetData` | src/control/trajectory_follower/src/mpc.cpp:261-324 | accepted exactly when a nearest point exists, position and yaw errors are within limits and the prediction ends by the last time |
| `MpcCycleFacts.AcceptedExact` | src/control/trajectory_follower/src/mpc.cpp:297-322 | the three acceptance checks written out, with the input delay counted twice in the last |
| `MpcCycle.FilterKeepsNearest` | src/control/trajectory_follower/src/mpc.cpp:495-519 | the appended point does not move the nearest point |
| `MpcCycle.Cycle.UpdateStateForDelayCompensation` | src/control/trajectory_follower/src/mpc.cpp:450-493 | succeeds exactly when every query can be read, and then gives the state after the buffered commands under the interpolated reference |
| `MpcCycleFacts.DelayedExact` | src/control/trajectory_follower/src/mpc.cpp:465-490 | one period of it: the vehicle model at velocity and curvature read at start plus so many periods, under the next buffered command |
| `MpcCycleFacts.AnswerableExact` | src/control/trajectory_follower/src/mpc.cpp:466-476 | what a query can be read from: equally long columns, sorted times and a time between first and last |
| `MpcCycle.Cycle.ResampleMPCTrajectoryByTime` | src/control/trajectory_follower/src/mpc.cpp:400-419 | every column at the sampling times, exactly when those lie within the times of the input |
| `MpcCycleFacts.HandedExact` | src/control/trajectory_follower/src/mpc.cpp:400-419 | every resampled column at step m is that of the filtered reference, the angles unwrapped, at the nearest time plus the delay plus m periods |
| `MpcCycle.Cycle.constructor` | src/control/trajectory_follower_nodes/src/lateral_controller_node.cpp:125-133 | the delay is the wanted one rounded to whole periods and the buffer holds one zero command for each |
| `MpcCycleFacts.RoundExact` | src/control/trajectory_follower_nodes/src/lateral_controller_node.cpp:130 | the nearest whole number, a half away from zero |
| `MpcCycle.Cycle.UpdateInputDelay` | src/control/trajectory_follower_nodes/src/lateral_controller_node.cpp:493-500 | the delay is rounded and the buffer cleared unless the request is a whole number of periods; the buffer still matches the delay after a parameter update if and only if the requested delay is no whole number of periods or is the old one |
| `MpcCycle.Cycle.StoreInput` | src/control/trajectory_follower/src/mpc.cpp:100-102 | push and pop keep the buffer as long as the delay |
| `MpcCycle.CalcNearestIndex` | src/control/trajectory_follower/src/mpc_utils.cpp:321-346 | the first of the nearest points within 60 degrees, or -1 exactly when there is none |
| `MpcCycle.NearestUnique` | src/control/trajectory_follower/src/mpc_utils.cpp:321-346 | that determines the index |
| `MpcCycle.CalcNearestPoseInterp` | src/control/trajectory_follower/src/mpc_utils.cpp:380-453 | fails exactly when nothing is near; otherwise no point of the segment from the nearest point to the nearer of the points next to it, clamped at the ends and the previous one on a tie, is closer to the vehicle than the pose, whose time and angle are mixed by the same weight; of two points too close to each other the nearest is returned as it is |
| `MpcCycleFacts.NearestExact` | src/control/trajectory_follower/src/mpc_utils.cpp:328-344 | a point heading at most 60 degrees away is no nearer than the one found, and farther when it comes before it |
| `MpcCycleFacts.FootInFull` | src/control/trajectory_follower/src/mpc_utils.cpp:425-452 | the pose in coordinates: one weight between 0 and 1 mixes position and time, and the angle turns from the neighbour by that share of the wrapped difference; below 1e-5 the point as it is |
| `MpcCycleFacts.FootClosest` | src/control/trajectory_follower/src/mpc_utils.cpp:435-440 | no mix of the two points is closer to the vehicle, in coordinates |
| `MpcCycle.LinearInterpMPCTrajectory` | src/control/trajectory_follower/src/mpc_utils.cpp:121-158 | the eight interpolations succeed together or not at all; each column gains exactly its interpolated values, the angles unwrapped first, and the answer is yes exactly when that leaves columns of equal length |
| `MpcTrajectories.MPCTrajectory.PushBack` | src/control/trajectory_follower/src/mpc_trajectory.cpp:25-38 | appends to all eight columns, which are of one length afterwards exactly if they were before |
| `MpcTrajectories.MPCTrajectory.Size` | src/control/trajectory_follower/src/mpc_trajectory.cpp:52-64 | the common length, and 0 when there is none |
| `MpcTrajectories.MPCTrajectory.CalcMPCTrajectoryTime` | src/control/trajectory_follower/src/mpc_utils.cpp:283-298 | the time column is the time to reach each point, one entry a point; on an empty trajectory or short columns it throws after exactly the readable segments |
| `MpcTrajectories.TimedIsSorted` | src/control/trajectory_follower/src/mpc_utils.cpp:283-298 | such a column starts at 0 and never decreases |
| `MpcTrajectories.TimedExact` | src/control/trajectory_follower/src/mpc_utils.cpp:288-296 | between two points the time grows by their distance over the speed, taken as at least 0.1 |
| `MpcTrajectories.MPCTrajectory.DynamicSmoothingVelocity` | src/control/trajectory_follower/src/mpc_utils.cpp:300-319 | the loop smooths from the start index on, leaves everything before it alone, and rewrites the times; what it does to columns of unequal length and when it throws |
| `MpcTrajectories.SmoothStepBounds` | src/control/trajectory_follower/src/mpc_utils.cpp:306-317 | one step stays between the velocity it starts from and the original one, and within the acceleration limit |
| `MpcTrajectories.SmoothStepExact` | src/control/trajectory_follower/src/mpc_utils.cpp:306-317 | the step itself: the first-order lag's blend of the old velocity and the target, moved by at most the acceleration limit over the segment's time |
| `MpcTrajectories.SmoothedInHull` | src/control/trajectory_follower/src/mpc_utils.cpp:300-319 | every smoothed velocity lies in the hull of the start velocity and the original ones |
| `MpcTrajectories.SmoothedIsLimited` | src/control/trajectory_follower/src/mpc_utils.cpp:308-316 | successive velocities differ by at most the limit times the segment's time |
| `Interpolation.IsValidInput` | src/control/trajectory_follower/src/interpolate.cpp:42-77 | accepts exactly non-empty, sorted, in-range and equally long input, written out |
| `Interpolation.LinearInterpolate` | src/control/trajectory_follower/src/interpolate.cpp:80-120 | on valid input, even with repeated knots, the single pass never skips a query, never divides by zero and appends for each query the value an independent search gives |
| `Interpolation.Seek` | src/control/trajectory_follower/src/interpolate.cpp:96-99 | from a running index that has not passed it, the walk stops at the least knot at or after the query |
| `Interpolation.InterpolatedBetween` | src/control/trajectory_follower/src/interpolate.cpp:109-117 | each value lies between the base values at its bracketing knots |
| `Interpolation.InterpolatedExact` | src/control/trajectory_follower/src/interpolate.cpp:109-117 | the value between two knots, weighted by the distances to the other one |
| `Interpolation.InterpolatedAtKnot` | src/control/trajectory_follower/src/interpolate.cpp:92-95 | a query at a knot returns the base value of the first of the coinciding knots |
| `Interpolation.InterpolatedAffine` | src/control/trajectory_follower/src/interpolate.cpp:109-117 | affine data are reproduced exactly |
| `Interpolation.LinearInterpolateOne` | src/control/trajectory_follower/src/interpolate.cpp:122-135 | the overload for one query |
| `Spline.SplineInterpolate.GenerateSpline` | src/control/trajectory_follower/src/interpolate.cpp:144-183 | for two values or more the sweeps solve the tridiagonal system and give the coefficients; for fewer the code throws |
| `Spline.Divisor` | src/control/trajectory_follower/src/interpolate.cpp:165-166 | the forward sweep never divides by less than 3 |
| `Spline.BackDone` | src/control/trajectory_follower/src/interpolate.cpp:171-173 | what the two sweeps leave satisfies every row of the system |
| `Spline.SolutionUnique` | src/control/trajectory_follower/src/interpolate.cpp:155-173 | the system with zero ends has one solution |
| `Spline.PieceExpands` | src/control/trajectory_follower/src/interpolate.cpp:191 | slope and second derivative are the Taylor coefficients of each cubic piece |
| `Spline.MeetsSmoothly` | src/control/trajectory_follower/src/interpolate.cpp:175-180 | neighbouring pieces meet each knot in value, slope and second derivative |
| `Spline.NaturalEnds` | src/control/trajectory_follower/src/interpolate.cpp:155-159 | the second derivative vanishes at both ends |
| `Spline.PassesThroughKnots` | src/control/trajectory_follower/src/interpolate.cpp:204-256 | on spaced knots the interpolant takes the base values at the base indexes |
| `Spline.SplineInterpolate.Interpolate` | src/control/trajectory_follower/src/interpolate.cpp:204-256 | invalid input is refused, fewer than two values throw; otherwise one value a query, wherever the knots lie: the spline where the running search puts the query, which for spaced knots is the cubic of the interval the query lies in, at the query's share of that interval |
| `Spline.OnPiece` | src/control/trajectory_follower/src/interpolate.cpp:233-245 | that holds on the whole closed interval, at either end |
| `Spline.LocatedExact` | src/control/trajectory_follower/src/interpolate.cpp:233-245 | strictly between two knots, however close, the position is weighted by the distances to both, over their distance or the machine epsilon |
| `Spline.AffineReproduced` | src/control/trajectory_follower/src/interpolate.cpp:144-192 | affine data on knots at equal distances are reproduced exactly |
| `Spline.SplineInterpolate.GetValue` | src/control/trajectory_follower/src/interpolate.cpp:185-192 | a fitted spline returns the k-th value at k, follows the k-th cubic on the whole closed interval to k + 1, and stays at the last value beyond; 0 before fitting |
| `CscConversion.CalCscMatrix` | src/common/osqp_interface/src/csc_matrix_conv.cpp:29-68 | column pointers start at 0, never decrease and end at the entry count; rows increase strictly in a column; exactly the entries of at least 1e-9 are listed |
| `CscConversion.CalCscMatrixTrapezoidal` | src/common/osqp_interface/src/csc_matrix_conv.cpp:70-115 | the same for the upper triangle, and a matrix that is not square is refused |
| `CscConversion.RoundTrip` | src/common/osqp_interface/src/csc_matrix_conv.cpp:29-115 | decoding gives the matrix with small entries zeroed, or its upper triangle |
| `CscConversion.EncodingExact` | src/common/osqp_interface/src/csc_matrix_conv.cpp:29-115 | the three vectors written out: pointers, strictly rising rows, values of at least 1e-9 and nothing of that size left out |
| `CscConversion.DecodedAt` | src/common/osqp_interface/src/csc_matrix_conv.cpp:29-115 | the value stored for a row between a column's pointers is the one read there |
| `CscConversion.SymmetricForm` | src/common/osqp_interface/src/csc_matrix_conv.cpp:70-115 | the upper triangle of a symmetric matrix determines its quadratic form |
| `CscConversion.TrapezoidalForm` | src/common/osqp_interface/src/csc_matrix_conv.cpp:70-115 | read as an upper triangle, the trapezoidal encoding of a symmetric matrix has the quadratic form of the thresholded matrix |
| `EarClipping.Polygon2Triangle` | src/common/had_map_utils/src/had_map_visualization.cpp:381-448 | the loop over the shrinking lists yields exactly the triangulation of the specification |
| `EarClipping.AreaConserved` | src/common/had_map_utils/src/had_map_visualization.cpp:396-447 | any polygon of n vertices gives n - 2 triangles whose signed areas sum to the shoelace area, ears found or not |
| `EarClipping.ClipArea` | src/common/had_map_utils/src/had_map_visualization.cpp:421-430 | removing a vertex takes away exactly the signed area of its corner |
| `EarClipping.FindClip` | src/common/had_map_utils/src/had_map_visualization.cpp:397-420 | with fresh flags the scan clips the first ear, or vertex 0 if there is none |
| `EarClipping.CheckEar` | src/common/had_map_utils/src/had_map_visualization.cpp:402-413 | the cyclic scan tests exactly the vertices outside the corner |
| `EarClipping.InsideIff` | src/common/had_map_utils/src/had_map_visualization.cpp:365-379 | a point is inside a corner if and only if the corner has an area and the point is a mix of its three points with positive weights, whichever way it turns |
| `EarClipping.InsideIsMix` | src/common/had_map_utils/src/had_map_visualization.cpp:365-379 | the weights of a point inside |
| `EarClipping.MixIsInside` | src/common/had_map_utils/src/had_map_visualization.cpp:365-379 | a positive mix of three points not on one line is inside |
| `EarClipping.EarHoldsNone` | src/common/had_map_utils/src/had_map_visualization.cpp:397-420 | no other vertex is a positive mix of the points of an ear that has an area |
| `EarClipping.EarExact` | src/common/had_map_utils/src/had_map_visualization.cpp:397-420 | an ear in full: a turn that is not to the left, and no vertex but its own three inside |
| `EarClipping.ClippedNext` | src/common/had_map_utils/src/had_map_visualization.cpp:397-430 | each triangle is the corner of the first ear, or of vertex 0 when there is none, and the rest is the list without that vertex |
| `EarClipping.EraseVertex` | src/common/had_map_utils/src/had_map_visualization.cpp:428-445 | after erasing a vertex and repairing two flags every cached flag is that of a fresh test |
| `EarClipping.CornersKept` | src/common/had_map_utils/src/had_map_visualization.cpp:436-445 | no other vertex's corner changes |
| `EarClipping.CornersAreVertices` | src/common/had_map_utils/src/had_map_visualization.cpp:421-427 | every triangle corner is a vertex of the polygon |
| `EarClipping.AcuteArea` | src/common/had_map_utils/src/had_map_visualization.cpp:355-362 | the angle test is the sign of the corner's area |
| `EarClipping.EarsTurnClockwise` | src/common/had_map_utils/src/had_map_visualization.cpp:396-447 | if an ear is found at every step all triangles have one orientation |
| `EarClipping.AbsoluteSumIff` | src/common/had_map_utils/src/had_map_visualization.cpp:396-447 | absolute areas sum to the absolute total exactly when all triangles have one orientation |
| `EarClipping.EarsCoverArea` | src/common/had_map_utils/src/had_map_visualization.cpp:396-447 | if an ear is found at every step, the absolute areas sum to the absolute polygon area |
| `EarClipping.BlindStep` | src/common/had_map_utils/src/had_map_visualization.cpp:397-420 | on every polygon of positive shoelace area the clipping reaches a polygon without any ear, where vertex 0 is clipped whatever its corner |
| `EarClipping.DartIsOvercovered` | src/common/had_map_utils/src/had_map_visualization.cpp:396-447 | on a counter-clockwise quadrilateral of doubled area 8 the inward vertex passes for an ear and the absolute areas sum to 24 |
| `LongitudinalControl.AtMostTwiceIff` | src/control/trajectory_follower_nodes/src/longitudinal_controller_node.cpp:479-555 | at a fixed stop distance every run changes state at most twice, whatever velocities and clock, if and only if the parameters leave no cycle, which can be read off them; the same holds of the runs under a clock that goes forward by at least any given time from call to call |
| `LongitudinalControl.ChangesBounded` | src/control/trajectory_follower_nodes/src/longitudinal_controller_node.cpp:479-555 | without a cycle at that distance, the changes of a run are bounded by a rank of its first state, at most 2 |
| `LongitudinalControl.CyclesForever` | src/control/trajectory_follower_nodes/src/longitudinal_controller_node.cpp:507-547 | with a cycle the state can change at every one of any number of calls, under a clock that goes forward by any given time from call to call and never back, the vehicle standing still at all of them or running at all of them |
| `LongitudinalControl.CanCycleIff` | src/control/trajectory_follower_nodes/src/longitudinal_controller_node.cpp:489-504 | the parameter condition holds exactly when some stop distance allows a cycle |
| `LongitudinalControl.OrderedDistances` | src/control/trajectory_follower_nodes/src/longitudinal_controller_node.cpp:489-504 | stopping distance at most drive distance and a non-negative offset exclude cycles |
| `LongitudinalControl.LongitudinalController.UpdateControlState` | src/control/trajectory_follower_nodes/src/longitudinal_controller_node.cpp:479-555 | the exact condition of every transition, state by state in raw inputs: from EMERGENCY to STOPPED if and only if the vehicle has not run for more than 0.5 s and is not past the overshoot distance; from STOPPING standing still wins over departing; and when the last running time is set |
| `LongitudinalControl.LongitudinalController.CallbackTimerControl` | src/control/trajectory_follower_nodes/src/longitudinal_controller_node.cpp:360-408 | the same exact conditions for one timer call that finds the path near, EMERGENCY for one that does not; STOPPED is entered only more than 0.5 s after the last stamp of a tick over a threshold; EMERGENCY and STOPPED command one limited step of velocity and acceleration, STOPPING the held velocity |
| `LongitudinalControl.LongitudinalController.RunTimer` | src/control/trajectory_follower_nodes/src/longitudinal_controller_node.cpp:360-408 | any run of timer calls: one whose last call is near, standing still for more than 0.5 s and not overshot does not end in EMERGENCY, and one whose last call is far does |
| `LongitudinalControl.NoneRunning` | src/control/trajectory_follower_nodes/src/longitudinal_controller_node.cpp:494-501 | under a clock that never goes back, that excludes every earlier tick over a threshold |
| `LongitudinalControl.LongitudinalController.GetDt` | src/control/trajectory_follower_nodes/src/longitudinal_controller_node.cpp:683-696 | the time between the readings, moved to half or twice the control period when it lies beyond; one period at the first tick |
| `LongitudinalControl.FilterApproaches` | src/control/trajectory_follower/src/longitudinal_controller_utils.cpp:166-182 | one step never passes the target and closes the gap by the whole limit unless it arrives |
| `LongitudinalControl.GapAfter` | src/control/trajectory_follower_nodes/src/longitudinal_controller_node.cpp:459-477 | over emergency ticks of any lengths the velocity approaches monotonically without overshoot, each tick closing at least the limit over the shortest one |
| `LongitudinalControl.EmergencyArrives` | src/control/trajectory_follower_nodes/src/longitudinal_controller_node.cpp:459-477 | the emergency velocity is reached exactly once the ticks allow for the gap, and kept |
| `LongitudinalControl.LongitudinalController.RunEmergency` | src/control/trajectory_follower_nodes/src/longitudinal_controller_node.cpp:360-408 | any run of timer calls that stay in EMERGENCY, under any clock readings: the commanded velocity goes to the emergency velocity without overshoot and is exactly there once the number of calls times the limit over half a period covers the gap |
| `LongitudinalControl.FarStaysEmergency` | src/control/trajectory_follower_nodes/src/longitudinal_controller_node.cpp:389-401 | which calls keep the controller in EMERGENCY: the vehicle far from the path, or past the stop line by too much |
| `SafetyStateMachine.SafetyStateMachine.ComputeSafeCommands` | src/drivers/vehicle_interface/src/safety_state_machine.cpp:161-199 | over the shift threshold the output holds no gear command, with or without a state command; controls are clamped; every field is a named code; wipers on means headlights on; the gear is never the reported one; requests stay open; and each of the four reports is made exactly under its condition |
| `SafetyStateMachine.GearShiftExact` | src/drivers/vehicle_interface/src/safety_state_machine.cpp:293-331 | when the gear is shifted automatically, and that positive acceleration gives Drive and negative Reverse |
| `SafetyStateMachine.SafeGearsExact` | src/drivers/vehicle_interface/src/safety_state_machine.cpp:161-199 | the gear sent at any speed, with or without a state command, and when a removed gear is reported |
| `SafetyStateMachine.AgreesExact` | src/drivers/vehicle_interface/src/safety_state_machine.cpp:161-199 | field by field: headlights low exactly when the wipers run without them, every other named field as commanded |
| `SafetyStateMachine.SafetyStateMachine.MakeConsistent` | src/drivers/vehicle_interface/src/safety_state_machine.cpp:161-199 | sanitizing and the headlights of one state command, with their reports |
| `SafetyStateMachine.SafetyStateMachine.MakeGearSafe` | src/drivers/vehicle_interface/src/safety_state_machine.cpp:161-199 | the gear of one state command, and its report exactly when one was asked for at speed |
| `SafetyStateMachine.SafetyStateMachine.Update` | src/drivers/vehicle_interface/src/safety_state_machine.cpp:202-210 | after any report every pending request is none or differs from it, met ones are cleared, and a timeout is reported exactly under the stated condition |
| `SafetyStateMachine.SafetyStateMachine.CheckStateChange` | src/drivers/vehicle_interface/src/safety_state_machine.cpp:373-411 | the exact condition under which a timeout is reported, with the met request compared after it is cleared |
| `SafetyStateMachine.TimeoutMeansLateIff` | src/drivers/vehicle_interface/src/safety_state_machine.cpp:377-388 | a timeout means a late request exactly when the report meets no request or one is late anyway; a met request always raises one |
| `SafetyStateMachine.TimeoutExact` | src/drivers/vehicle_interface/src/safety_state_machine.cpp:373-411 | the timeout condition request by request |
| `SafetyStateMachine.UnmetRequestExpires` | src/drivers/vehicle_interface/src/safety_state_machine.cpp:373-411 | a lone request no report meets raises a timeout from its stamp plus the timeout on and not before |
| `SafetyStateMachine.ClearedExact` | src/drivers/vehicle_interface/src/safety_state_machine.cpp:377-388 | which requests a report clears |
| `SafetyStateMachine.SafetyStateMachine.CacheStateChangeRequest` | src/drivers/vehicle_interface/src/safety_state_machine.cpp:346-370 | a request is stored exactly when it asks for a change; no request then repeats the reported state |
| `SafetyStateMachine.CachedExact` | src/drivers/vehicle_interface/src/safety_state_machine.cpp:346-370 | each request is the command with its stamp when it is one and differs from the report, else the old request |
| `SafetyStateMachine.SafetyStateMachine.Sanitize` | src/drivers/vehicle_interface/src/safety_state_machine.cpp:414-488 | only named codes come out, named codes come through unchanged, and a bad state is reported exactly when something was dropped |
| `SafetyStateMachine.SafetyStateMachine.Clamp` | src/drivers/vehicle_interface/src/safety_state_machine.cpp:334-343 | outputs lie within the limits, inputs within them come through, and the warning is exact |
| `SmoothStop.SmoothStop.CalcTimeToStop` | src/control/trajectory_follower/src/smooth_stop.cpp:71-125 | the running sums give a line that solves the normal equations; a time is returned exactly when times spread, the line slopes and its root is positive, and it is that root; unset parameters throw |
| `SmoothStop.NormalIsLeast` | src/control/trajectory_follower/src/smooth_stop.cpp:92-115 | such a line has the least sum of squared residuals of all lines, for a history of any length |
| `SmoothStop.ExcessIs` | src/control/trajectory_follower/src/smooth_stop.cpp:92-115 | the extra error of any other line is exactly the squared distance between the lines at the entries |
| `SmoothStop.NormalUnique` | src/control/trajectory_follower/src/smooth_stop.cpp:104-115 | where the times spread at all the least line is unique |
| `LowpassFilter.Butterworth2dFilter.FiltVector` | src/control/trajectory_follower/src/lowpass_filter.cpp:62-82 | for every signal, sample i is its first value plus what the streaming filter, from its zeroed state, makes of the deviations from it; an empty signal throws |
| `LowpassFilter.StatesLifted` | src/control/trajectory_follower/src/lowpass_filter.cpp:62-82 | the batch filter's delay variables are the streaming state lifted by the first value, at every sample |
| `LowpassFilter.ConstantPasses` | src/control/trajectory_follower/src/lowpass_filter.cpp:62-82 | a constant signal passes unchanged at every length |
| `LowpassFilter.ButterworthGains` | src/control/trajectory_follower/src/lowpass_filter.cpp:41-49 | for a positive period and cutoff the coefficients have unit gain at zero frequency, none at the highest, and meet Jury's stability conditions |
| `LowpassFilter.BilinearExact` | src/control/trajectory_follower/src/lowpass_filter.cpp:41-49 | for every z the coefficients give the bilinear transform of the second-order Butterworth filter |
| `LowpassFilter.CutoffGain` | src/control/trajectory_follower/src/lowpass_filter.cpp:41-49 | at the cutoff frequency, warped by the transform, the gain is 1 over the square root of 2 and the lag a quarter turn |
| `LowpassFilter.PolesInside` | src/control/trajectory_follower/src/lowpass_filter.cpp:41-60 | under those conditions every pole, real or complex, lies strictly inside the unit circle |
| `LowpassFilter.ButterworthPoles` | src/control/trajectory_follower/src/lowpass_filter.cpp:41-49 | so do the poles of the filter for every positive period and cutoff |
| `LowpassFilter.Butterworth2dFilter.Filter` | src/control/trajectory_follower/src/lowpass_filter.cpp:52-60 | one sample by the recurrence, with the state shifted by one |
| `LowpassFilter.StepExact` | src/control/trajectory_follower/src/lowpass_filter.cpp:52-60 | the difference equation and the shifted delay variables |
| `LowpassFilter.Butterworth2dFilter.Initialize` | src/control/trajectory_follower/src/lowpass_filter.cpp:34-50 | clears the state and leaves a stable filter of unit gain |

## Left out

- The quadratic program solvers, the Kalman filter history, the spatial hash and bounding boxes: library code or headers.
- ROS nodes, publishers, timers, transforms, parameters and drivers: input and output only.
- Floating-point rounding, NaN and overflow; the validity check of the matrices tests for these alone.
- Steering prediction, kinematic vehicle models and quaternion interpolation: transcendental; they enter as arbitrary values.
- `filtfilt_vector`: it filters the signal instead of its reversed copy, so it has no phase property to state.
- `SmoothStop::init` and `calculate`, `timeout_commands`, curvature and yaw of trajectories, resampling by distance: they would add easy members only.
- `DbwStateMachine`, `LatLonMuxer` and the enum tables: small finite cases.
- Spline.SplineInterpolate.GetValue: requires a non-negative position; the code converts the floor of a negative one to an unsigned index, which C++ leaves undefined.
- MpcMatrices.Mpc.FillMatrices: requires the matrices of the vehicle model to have the declared shapes, which the matrix library would otherwise reject.
- LongitudinalControl.LongitudinalController.CallbackTimerControl: takes the command of the driving state and the acceleration of the smooth stop as inputs, since the feedback controllers are not part of this model.
