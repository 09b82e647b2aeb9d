# Retail staff scheduling: the staffing program and its occupancy table

This project models the integer core of a retail staff-scheduling script
(`mip.py`). The store opens from 10:00 to 22:00. It chooses, for a week,
which full-time and part-time staff slots to hire and which of 28 fixed
shift patterns each hired slot works on each day. The choice must meet an
hourly head-count requirement at the least labour cost. The script hands
the choice to a MIP solver. This model states what the solver is asked
for and proves what any answer that satisfies it guarantees.

The model has six modules:

- `ShiftCatalog` (`shift_catalog.dfy`) holds the shift catalogue. It has
  the 28 × 12 coverage matrix `schedule_matrix` and the list of shift
  lengths `duration_shift`. The number of shifts is the number of matrix
  rows, as in the script. The module proves that each listed duration is
  the span from a shift's first to its last covered hour, breaks included.
  It also lists the shifts that cover a given hour.
- `Sums` (`sums.dfy`) defines a finite sum `Sum(n, f)` with its algebra
  (congruence, sum of sums, scaling, monotonicity, bounds, exchange of a
  double sum). Every `sum`/`prod` of the solver's tuple dictionaries is
  written with it.
- `StaffingModel` (`staffing_model.dfy`) is the binary program of
  `solve_model`. The decision variables are maps to `bool`, because the
  script reads a solver value as set when it exceeds 0.5. Each constraint
  family is one predicate: hire linking with big-M 500, the part-time
  ratio, workdays, weekly hours, one shift per day, demand and symmetry
  breaking. `Feasible` is their conjunction. `Cost` is the objective
  (duration × 15 per full-time assignment, duration × 9 per part-time one
  of a slot the cost table reaches).
- `StaffingProperties` (`staffing_properties.dfy`) proves what every
  feasible solution guarantees. Unhired slots are idle. Each tier keeps its
  labour rules. Hire flags form a prefix. The ratio means 7·P ≤ 3·F. Each
  cell is staffed between its requirement and the hired head count. The
  weekly cost lies between bounds.
- `ScheduleBuilder` (`schedule_builder.dfy`) is `build_schedule`, written
  as a method with the script's nested loops: days, hours, shifts covering
  the hour, employees. It is proved to return exactly the occupancy table
  whose entries the demand constraint bounds. So a feasible solution gives
  a table that meets every requirement.
- `DemandEstimator` (`demand_estimator.dfy`) models the scenario
  requirement `ceil(max(samples) / 10)` of one cell and the table of such
  requirements. It proves that the result is the least head count that
  serves every simulated count.

A shift's listed duration is not the number of hours it covers.
`duration_shift` is the span from the first to the last covered hour,
breaks included: shift 1 covers six hours and is listed as 7.
`DurationIsSpan` and `CoveredHoursWithinDuration` state this meaning.

Three places in the script read part-time data by the full-time slot
numbers. The coefficient tables `dict_duration` (mip.py:173-174) and
`dict_cost_part` (mip.py:177-178) are keyed over the full-time slots. A
product over a tuple dictionary sums only the keys both sides have. So
the part-time hour cap (mip.py:95-96) binds only the part-time slots that
are also full-time slot numbers. For a slot above that, the row reads
`0 <= 30 * part[e]` and caps nothing. Likewise the objective prices only
those slots. `SharedSlots` names these slots, and `Feasible` and `Cost` use
it. Third, `build_schedule` (mip.py:127-130) looks up part-time
assignments over the full-time slot numbers. `BuildSchedule` takes the
single slot count and reads both tiers over it. Every call in the script
uses equal slot counts, and then all three cover every part-time slot.

## Model

| member | source | states |
|---|---|---|
| ShiftCatalog.DurationIsSpan | mip.py:24-55 | every shift's listed duration is between 1 and 12, its start hour and its last hour (start + duration − 1) are covered, and no hour outside that span is covered |
| ShiftCatalog.CoveredHoursWithinDuration | mip.py:24-55 | the hours a shift actually covers never exceed its listed duration, because the duration counts breaks |
| ShiftCatalog.CoveringShifts | mip.py:105-106 | the shift numbers covering an hour (`np.where(schedule_matrix[:, hour-10])[0] + 1`) are exactly the shifts whose row has a 1 in that hour's column, in increasing order |
| ShiftCatalog.Covers | mip.py:24-52 | shift s is on the floor at hour h exactly when row s of the coverage matrix has a 1 in column h − 10 |
| ShiftCatalog.Duration | mip.py:55 | the listed length of shift s, `duration_shift[s - 1]` |
| StaffingModel.HireLinked | mip.py:76-79 | 'num_full' / 'num_part': a slot's weekly shifts are at most 500 times its hire flag |
| StaffingModel.RatioRespected | mip.py:82 | 'pf-ratio': P·(1 − 0.3) ≤ 0.3·F, in integers as 7·P ≤ 3·F |
| StaffingModel.WorkdaysWithin | mip.py:85-88 | 'wdays_full' / 'wdays_part': a slot's weekly shifts are at most the day limit times its hire flag |
| StaffingModel.HoursAtMost | mip.py:91-96 | 'max_whours_full' / 'max_whours_part': a slot's weekly hours (shift durations summed) are at most the cap times its hire flag |
| StaffingModel.HoursAtLeast | mip.py:93-94 | 'min_whours_full': a slot's weekly hours are at least 30 times its hire flag |
| StaffingModel.OneShiftPerDay | mip.py:99-102 | 'one_shift_day_full' / 'one_shift_day_part': a slot's shifts on any day are at most its hire flag |
| StaffingModel.DemandMet | mip.py:105-107 | 'meet_demand': in every cell the staff of both tiers on shifts covering the hour is at least the requirement |
| StaffingModel.SymmetryBroken | mip.py:110-111 | 'symmetry_full' / 'symmetry_part': slot k is hired only if slot k − 1 is |
| StaffingModel.SharedSlots | mip.py:173-178 | the part-time slots that the full-time-keyed coefficient tables reach: min(numFull, numPart), equal to numPart at equal counts |
| StaffingModel.Feasible | mip.py:74-111 | a solution is feasible when it satisfies all thirteen constraint families, with the part-time hour cap over the shared slots |
| StaffingModel.Cost | mip.py:72 | the objective: duration × 15 per full-time assignment plus duration × 9 per part-time assignment of a shared slot |
| StaffingProperties.OnFloorAtMostShifts | mip.py:99-106 | an employee is on the floor in a cell at most as often as the shifts taken that day |
| StaffingProperties.DayHoursAtMost | mip.py:91-96 | the hours booked on a day are non-negative and at most 12 per shift taken |
| StaffingProperties.WeekBounds | mip.py:91-96 | weekly hours are non-negative and at most 12 per assigned shift |
| StaffingProperties.UnhiredIdle | mip.py:85-88 | under the workday bound an unhired slot has no assignment on any day and shift, so its weekly shifts, weekly hours and presence in every cell are 0 |
| StaffingProperties.WorkdayLimitImpliesHireLink | mip.py:76-88 | a workday bound of at most 500 implies the big-M hire link |
| StaffingProperties.ShiftCountIsWorkdays | mip.py:85-102 | under one shift per day the weekly number of shifts equals the number of days worked |
| StaffingProperties.DayShiftIsWorkday | mip.py:99-102 | under one shift per day the shifts of a day are 1 exactly when the employee works that day, and 0 otherwise |
| StaffingProperties.HiredFullTimeRules | mip.py:85-94 | a hired full-time slot of a feasible solution works 3 to 5 days and 30 to 40 hours a week |
| StaffingProperties.HiredPartTimeRules | mip.py:85-96 | a hired part-time slot of a feasible solution works at most 4 days a week, and at most 30 hours when its number is also a full-time slot number |
| StaffingProperties.HiresFormPrefix | mip.py:110-111 | under symmetry breaking slot k is hired if and only if k is at most the number of hired slots |
| StaffingProperties.FeasibleHiresFormPrefix | mip.py:110-111 | in a feasible solution the hired slots of both tiers are a prefix 1 .. hired count |
| StaffingProperties.RatioMeaning | mip.py:82 | the ratio constraint with pfrate 0.3 read over the reals is the integer constraint used, and it says part-time staff are at most 30% of all hired staff |
| StaffingProperties.PartTimeNeedsFullTime | mip.py:82 | a feasible solution that hires any part-time staff hires at least three full-time staff |
| StaffingProperties.TierCoverAtMostHired | mip.py:99-102 | under one shift per day each slot adds at most 1 to a cell (0 if unhired), so a tier adds at most its hired count |
| StaffingProperties.StaffedBetweenDemandAndHires | mip.py:105-107 | in a feasible solution each cell's staff is at least its requirement and at most the hired staff of both tiers |
| StaffingProperties.InfeasibleWhenDemandExceedsPool | mip.py:105-107 | a requirement above numFull + numPart in some cell admits no feasible solution |
| StaffingProperties.TierCostIsRateTimesHours | mip.py:175-178 | a tier's cost, summed per assignment as duration × rate, is the rate times the tier's total weekly hours |
| StaffingProperties.WeekCostIsRateTimesHours | mip.py:175-178 | one slot's weekly cost is the rate times its weekly hours |
| StaffingProperties.DayCostIsRateTimesHours | mip.py:175-178 | one slot's cost on a day is the rate times its hours that day |
| StaffingProperties.TierHoursNonNegative | mip.py:173-174 | a tier's total weekly hours are non-negative |
| StaffingProperties.TierHoursAtMost | mip.py:91-96 | under a weekly hour cap a tier works at most the cap times its hired count |
| StaffingProperties.TierHoursAtLeast | mip.py:93-94 | under the full-time hour floor a tier works at least the floor times its hired count |
| StaffingProperties.CostNonNegative | mip.py:72 | the weekly cost of any assignment is non-negative |
| StaffingProperties.CostBounds | mip.py:72-96 | a feasible solution costs at least 450 per hired full-time slot, at most 600 per hired full-time and 270 per hired part-time slot, so at most 600·numFull + 270·numPart, for any slot counts |
| StaffingProperties.IdleTierKeepsRules | mip.py:76-111 | a tier with no assignment and no hire keeps the hire link, workday, hour, one-shift-per-day and symmetry constraints for any bounds |
| StaffingProperties.IdleSolutionFeasible | mip.py:74-111 | when no cell requires staff, hiring nobody satisfies every constraint of the program and costs nothing, for any slot counts |
| StaffingProperties.IdleCost | mip.py:72 | the solution with no assignment costs nothing, for any slot counts |
| ScheduleBuilder.BuildSchedule | mip.py:120-133 | the table has exactly the 84 cells of the week, and each entry is the full-time plus part-time staff on the floor there |
| ScheduleBuilder.StaffAt | mip.py:124-131 | the count for one cell, taken shift by shift and employee by employee, equals the staff on the floor that the demand constraint sums |
| ScheduleBuilder.ScanCountIsStaffed | mip.py:125-131 | summing over shifts first and employees second gives the same total as the demand constraint's per-employee sum |
| ScheduleBuilder.FeasibleOccupancyMeetsDemand | mip.py:105-107 | the table of a feasible solution meets every cell's requirement and holds at most the hired staff of both tiers |
| ScheduleBuilder.Occupancy | mip.py:121-132 | the occupancy table has an entry exactly for each (day, hour) of the week |
| DemandEstimator.MaxSample | mip.py:244 | the maximum of the draws is one of them and at least every one |
| DemandEstimator.CeilDiv | mip.py:244 | the ceiling of a / b is the least q with a ≤ b·q |
| DemandEstimator.ScenarioRequirement | mip.py:244 | there is a requirement exactly when there are draws |
| DemandEstimator.ScenarioRequirementIsLeastCover | mip.py:244 | the requirement serves every draw at ten customers per staff member, and no smaller head count does |
| DemandEstimator.ScenarioTable | mip.py:244 | the scenario table has an entry for exactly the cells that have draws |
| DemandEstimator.ScenarioTableMeaning | mip.py:244 | each table entry serves every draw of its cell at ten customers per staff member and no smaller head count does, and draws for the whole week give a requirement for every cell of the week |

## Left out

- The MIP solver itself is not part of this model: building and optimising the model, the 300-second time limit, the output flag, reading back values and the objective value (mip.py:60-61, 113-117). It is a foreign solver. The model states what a solution must satisfy (`Feasible`) and what it costs (`Cost`) instead.
- Optimality of the solver's answer is not modelled, because it depends on the foreign solver; only feasibility is.
- Poisson sampling (`np.random.poisson`) is randomness. The draws of each cell are a parameter of `ScenarioRequirement` and `ScenarioTable`.
- The Poisson quantile requirement (`scp.poisson.ppf` with rounding, mip.py:203, 304) is float arithmetic in a foreign library.
- `service_availability` and the failure fractions (mip.py:135-141, 195-198) use float ratios over simulated weeks.
- The sample-size formula with logarithms (mip.py:315) and the variant of the scenario requirement without the ceiling (mip.py:318) are float arithmetic.
- Plotting and printing are presentation.
- The script's rebinding of `hreq`, `ifull`, `ipart` and the cost dictionaries between phases is orchestration. The requirement table, the slot counts and the assignments are parameters instead.
- `np.ceil` returns a float in the script. The model keeps the requirement as a natural number, which has the same value.
- BuildSchedule: reads both tiers over one slot count, as the script does; it equals the staffing program's head count only when the tiers have the same number of slots.
