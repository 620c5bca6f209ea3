# Two-object step arbiter of LogisticsSimulate

The simulator loads two objects' precomputed trajectories into a table `df_pre` with one
row per (object, step). `read_sqlite` adds two columns:
- `current_flg` marks the row of each object's current step;
- `created_at` stamps the moment a row became current.

`analysis` then runs a bounded loop of ticks. Each tick reads each object's current row by
`obj_id` and compares the sum of the two barrier ranges with the objects' distance.
- When they are apart, both objects step.
- Otherwise, unless object 1's next step reaches 100, the object with the strictly smaller
  `priority_no` is tried one step ahead: it steps when the ratio test `m / d' < 2` holds,
  and otherwise the other object steps.

The loop stops when an object has no current row, at the step guard, or when the lookahead
row does not exist (the source raises there).

The project models this in five modules:

- `Geometry`: points, and the two distance tests written on squared distances. Lemmas show
  that these agree with the source's square-root and division tests.
- `MasterTable`: the immutable columns. Object 1's rows come first, then object 2's, each
  ordered by step.
- `Arbiter`: the decision of one tick (`Decide`) and one tick on the objects' current steps
  (`TickSpec`). Also the whole run (`RunSpec`) and the proof that a break always ends it
  within `len(df_pre)` ticks. That proof is about the program whose updates select each
  object's rows by `obj_id`. The source selects them by `priority_no`, and it is the same
  program only when object k has `priority_no` k (see "## Findings").
- `Table`: the two columns as sequences. It holds the current-row query, the row updates of
  one advance, and the invariant `TableValid`. Under `TableValid` each object has at most one
  current row, and `created_at` records its history with strictly increasing stamps. A
  row-level tick refines `TickSpec`.
- `Simulation`: the class `Simulation` with the arrays `flag` (`current_flg`) and `createdAt`
  (`created_at`) and a tick counter `clock`.
  - The constructor is the initialisation of `read_sqlite`.
  - `Advance` is one `.loc` update pair.
  - `Tick` is one loop iteration.
  - `Analysis` is the whole loop.

Behaviour of the code that the model keeps as written:
- The step guard is `df1_step2 >= 100` on object 1, whichever object is preferred. It does
  not test the preferred object's number of rows.
- The `priority_no` comparison at line 158 is strict, so equal priorities make object 2
  the preferred object. The model follows that comparison only. Under a tie the source's
  update then selects no row (both priorities 1) or both objects' rows (both priorities
  2); the model instead moves the chosen object by `obj_id` (see "## Findings").
- Both rows that become current in one no-interference tick carry the same `nowt`, so two
  transitions can share a timestamp.
- Advancing from an object's last row clears its flag and sets none. The run stops at the
  next tick, through the empty-query break, and not at the advance itself.
- A lookahead to a missing row is an outcome of the run (`LookaheadMissing`), not a
  precondition, because the source reaches that case on ordinary input.

## Model

| member | source | states |
|---|---|---|
| Geometry.BelowIffSquareBelow | poc_simulate.py:131-141 | for a non-negative barrier sum, `sum < distance` holds exactly when `sum² < squared distance` |
| Geometry.RatioIffSquareBelow | poc_simulate.py:159-163 | for a non-negative barrier sum, the test `sum / distance < 2` holds exactly when `sum² < 4·squared distance`; it fails at distance zero, as float64 inf/nan does |
| Arbiter.PreferredHasPrecedence | poc_simulate.py:158 | the object tried first has the smaller or equal `priority_no`; object 1 is tried first exactly when its `priority_no` is strictly smaller; equal priorities prefer object 2 |
| Arbiter.DecideAgreesWithDistances | poc_simulate.py:131-199 | for every pair of steps, the decision on squared distances equals the decision written with the square-root distances and the division test of the source |
| Arbiter.LookaheadRule | poc_simulate.py:158-199 | under interference, below the guard, with a next row for the preferred object: the preferred object steps exactly when its next position passes the ratio test against the other's current position, else the other object steps |
| Arbiter.TickSpecMeaning | poc_simulate.py:118-199 | in one tick each object stays or moves exactly one step; the tick breaks on a missing current row exactly when an object has none; it advances exactly when something moves; both move exactly when they are apart; the guard stops the run exactly under interference with object 1's next step at 100 or more; the lookahead query fails (the `.values[0]` of lines 159-161 and 182-184 raises) exactly under interference, below the guard, when the preferred object has no next row |
| Arbiter.RunSpec | poc_simulate.py:116-200 | a run never uses more iterations than it has, and a run no break stopped used all of them |
| Arbiter.RunStopsAsTickWould | poc_simulate.py:122-123 | a run ended by a break ends where one more tick would break the same way: the breaking tick changed nothing |
| Arbiter.RunUnfolds | poc_simulate.py:116-200 | the refinement step the loop's proof takes at each iteration: if the loop, after some ticks, stands where a tracked run has iterations left, one more tick either ends that run with the tick's outcome or leaves the loop where the run has one iteration fewer left |
| Arbiter.RunEndsByBreak | poc_simulate.py:116-123 | given as many iterations as rows still ahead of both objects, a break always ends the run, within that many ticks |
| Arbiter.TableLengthBoundsRun | poc_simulate.py:116 | with updates selected by `obj_id`, the `len(df_pre)` iterations of the `for` loop never run out on a non-empty table: from any state a break ends the run first (the source's own updates can stall instead, see Findings) |
| Table.FirstCurrent | poc_simulate.py:120-127 | the current-row query returns the first current row of the object's block, with no current row before it, or no row when none in the block is current |
| Table.MarksFound | poc_simulate.py:120-127 | when exactly one row of an object is current, the query returns that row's step |
| Table.AdvanceAt | poc_simulate.py:142-146 | an advance keyed by `obj_id` clears the row at step s, makes the row at step s+1 current if it exists, stamps it with `nowt` only if it was not current, and leaves every other row as it was |
| Table.AdvanceMoves | poc_simulate.py:142-146 | from a block with exactly step s current, an advance leaves exactly step s+1 current (none after the last row), the reached row stamped with the later time, stamps strictly increasing, and the other object's rows untouched |
| Table.InitialValid | poc_simulate.py:93-105 | after loading, exactly the step-0 row of each object is current and stamped with the load time, all other stamps are NaT, and each object stands at step 0 (none without rows) |
| Table.OneAdvanceValid | poc_simulate.py:165-169 | a single-object advance keeps the table valid, moves that object one step and leaves the other object's current step as it was |
| Table.BothAdvanceValid | poc_simulate.py:141-151 | the no-interference update keeps the table valid and moves both objects one step, both reached rows stamped with the same tick time |
| Table.TickRowsRefines | poc_simulate.py:118-199 | one iteration on the columns keeps the table valid, moves the objects exactly as `TickSpec` says, and stamps exactly the rows that became current |
| Table.PriorityKeyAgrees | poc_simulate.py:142-151 | when object 1 has `priority_no` 1 and object 2 has 2, the updates keyed by `priority_no` equal those keyed by `obj_id` |
| Table.SwappedPrioritiesMoveWrongObject | poc_simulate.py:181-192 | on a loaded table with priorities 2 and 1, the first tick chooses object 2 and its lookahead passes, but the update as written, selecting `priority_no == 2`, moves object 1 to step 1 (stamped with the tick's time) and leaves object 2 at step 0 |
| Table.SwappedTickMoves | poc_simulate.py:181-192 | on the same table, the tick selecting rows by `obj_id` moves object 2 to step 1 and leaves object 1 at step 0 |
| Table.TiedPrioritiesStall | poc_simulate.py:181-192 | with both priorities 1, interference and a passing lookahead, object 2 is chosen but the update as written, selecting `priority_no == 2`, changes no flag and no stamp, so the next tick repeats the same decision |
| Table.TiedTickMoves | poc_simulate.py:181-192 | on the same table, the tick selecting rows by `obj_id` moves object 2 to its next step and leaves object 1 at its step |
| Simulation.Simulation.constructor | poc_simulate.py:93-105 | the columns start as `current_flg` 1 exactly on step-0 rows and `created_at` the load time there and NaT elsewhere; the table is valid and each object stands at its start |
| Simulation.Simulation.Advance | poc_simulate.py:142-146 | the in-place `.loc` update pair leaves the arrays equal to the row update of one advance |
| Simulation.Simulation.UpdateRows | poc_simulate.py:118-199 | one loop body applied to the arrays gives the columns of the row-level tick at the next clock value |
| Simulation.Simulation.Tick | poc_simulate.py:118-199 | one iteration keeps the table valid, moves the objects as `TickSpec` says and stamps exactly the newly current rows with the tick's time |
| Simulation.Simulation.Iterate | poc_simulate.py:116-200 | one iteration either ends the run exactly as `RunSpec` says or leaves the loop where `RunSpec` has one iteration fewer left |
| Simulation.Simulation.RunLoop | poc_simulate.py:116-200 | the loop runs until the first break or `len(df_pre)` iterations, ending where the run it tracks ends |
| Simulation.Simulation.Analysis | poc_simulate.py:112-201 | `analysis`, with updates selected by `obj_id`, runs as `RunSpec` over `len(df_pre)` iterations from the loaded steps, keeps the table valid, and on a non-empty table always ends by a break within `len(df_pre)` ticks |

## Findings

| source | as written | input that shows it | evidently intended | confidence | as-written member | corrected member |
|---|---|---|---|---|---|---|
| poc_simulate.py:181-192 | the rows to clear and set are selected by `priority_no == 1` / `priority_no == 2` (here and in lines 142-151, 165-179, 195-199), while the current rows are read by `obj_id` | freshly loaded table, object 1 with `priority_no` 2 on (0, 0), (0, 0), (0, 0), object 2 with `priority_no` 1 on (0, 0), (1, 0), (2, 0), barrier ranges 0: at the first tick object 2 is chosen and its lookahead passes, but object 1 moves to step 1, with no lookahead of its own, and object 2 stays at step 0 | the update moves the chosen object's own rows, selected by `obj_id` | not executed | Table.SwappedPrioritiesMoveWrongObject | Table.SwappedTickMoves |
| poc_simulate.py:181-192 | under a tie of `priority_no` values the update for the chosen object selects the rows of `priority_no == 2` (or `== 1`), whatever object they belong to | both objects with `priority_no` 1, two rows each, barrier ranges 0, both at step 0 on the point (0, 0), object 2's step-1 point (1, 0): object 2 is chosen and its lookahead passes, the update selects no row, the table is unchanged, and every later tick repeats, so the `for` loop uses up all 4 iterations without a break | the chosen object steps, so the run ends by a break within `len(df_pre)` ticks | not executed | Table.TiedPrioritiesStall | Table.TickRowsRefines |

Both tables are the columns loading leaves (`Table.SwappedStart`, `Table.TiedStart`), so
each discrepancy shows at the first tick of a run. The model keys all updates by `obj_id`;
`Table.SwappedTickMoves` and `Table.TiedTickMoves` show its tick on the two tables. `Table.PriorityKeyAgrees` shows the two keys agree whenever
object k has `priority_no` k. The priorities come from a configuration file the generator
reads, so nothing in the repository guarantees that layout.

## Left out

- SQL reading and writing, `DatabaseTransaction` and the pandas frame assembly of `read_sqlite`: the loaded table is the input `Master`.
- `animation`, the `print` calls, the commented-out web endpoints and the `__main__` driver: presentation and process wiring.
- `time.sleep(0.1)`: pacing only.
- `datetime.datetime.now()`: replaced by a tick counter. Load time is 0, and the i-th tick stamps time i.
- make_master_trajectory.py is not part of this model. Its trajectories enter as sequences of points, and the steps of each object run 0..N-1.
- `math.sqrt`: the distance tests are stated on squared distances, and `Geometry` proves them equivalent to the square-root form.
- float64 arithmetic: positions and barrier ranges are exact reals, so rounding is not modelled.
- Negative barrier ranges: the source never validates them, and the model assumes they are non-negative (`Master.WellFormed`).
- Tables whose rows are not one per (object, step) with steps from 0, or that hold other `obj_id` values: the source only ever queries objects 1 and 2.
- The columns the loop does not change (positions, priorities, barrier ranges) are immutable datatype fields, not table cells.
