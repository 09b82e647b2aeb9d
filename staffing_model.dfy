/** The binary staffing program that the store hands to its solver: the
    decision variables, every constraint as a predicate over their values,
    and the weekly labour cost that the solver minimises.

    Full-time and part-time slots are numbered 1 .. numFull and
    1 .. numPart, days 1 (Monday) .. 7 (Sunday), shifts as in the shift
    catalogue. A solver value is read as assigned when it exceeds 0.5, so
    every variable is modelled as a bool. */
module StaffingModel {
  import opened Sums
  import opened ShiftCatalog

  /** The days of the week, 1 (Monday) .. 7 (Sunday). */
  const Days: seq<int> := [1, 2, 3, 4, 5, 6, 7]
  const NumDays: nat := |Days|

  /** The big-M of the hire-linking constraint. */
  const BigM: int := 500
  /** The part-time ratio pfrate = 0.3, as the fraction PfRateNum / PfRateDen. */
  const PfRateNum: int := 3
  const PfRateDen: int := 10
  /** Full-time staff: at most FG hours over at most FD workdays a week. */
  const FG: int := 40
  const FD: int := 5
  /** Part-time staff: at most PG hours over at most PD workdays a week;
      PG is also the least weekly hours of a hired full-time member. */
  const PG: int := 30
  const PD: int := 4
  /** Hourly cost of a full-time and of a part-time staff member. */
  const CostF: int := 15
  const CostP: int := 9

  /** (day, hour) */
  type Cell = (int, int)
  /** (employee, day, shift) */
  type Key = (int, int, int)
  /** Values of a tier's assignment variables, keyed (employee, day, shift). */
  type Assignment = map<Key, bool>
  /** Values of a tier's hire variables, keyed by employee. */
  type HireFlags = map<int, bool>
  /** Required headcount per (day, hour). */
  type Requirement = map<Cell, int>

  datatype Solution = Solution(
    assignFull: Assignment,
    assignPart: Assignment,
    full: HireFlags,
    part: HireFlags)

  predicate IsDay(d: int) { 1 <= d <= NumDays }

  predicate IsCell(c: Cell) { IsDay(c.0) && IsHour(c.1) }

  /** Employee e works shift s on day d. */
  predicate Assigned(a: Assignment, e: int, d: int, s: int)
  {
    (e, d, s) in a && a[(e, d, s)]
  }

  /** Slot k is hired. */
  predicate Hired(f: HireFlags, k: int)
  {
    k in f && f[k]
  }

  /** The requirement has an entry for every (day, hour) of the week. */
  predicate CoversWeek(hreq: Requirement)
  {
    forall d, h :: 1 <= d <= NumDays && OT <= h < CT ==> (d, h) in hreq
  }

  /** Every (employee, day, shift) variable of a tier of n slots has a value. */
  predicate HasAllKeys(a: Assignment, n: nat)
  {
    forall e, d, s :: 1 <= e <= n && 1 <= d <= NumDays && 1 <= s <= NumShifts ==> (e, d, s) in a
  }

  // ---------------------------------------------------------------------
  // The linear expressions of the model

  /** assign.sum(e, d, '*'): shifts assigned to employee e on day d. */
  function ShiftsOnDay(a: Assignment, e: int, d: int): int
  {
    Sum(NumShifts, (i: nat) => Ind(Assigned(a, e, d, i + 1)))
  }

  /** assign.sum(e, '*', '*'): shifts assigned to employee e in the week. */
  function WeekShifts(a: Assignment, e: int): int
  {
    Sum(NumDays, (j: nat) => ShiftsOnDay(a, e, j + 1))
  }

  /** The hours employee e is booked for on day d. */
  function DayHours(a: Assignment, e: int, d: int): int
  {
    Sum(NumShifts, (i: nat) => Ind(Assigned(a, e, d, i + 1)) * Duration(i + 1))
  }

  /** assign.prod(dict_duration, e, '*', '*'): the weekly hours of employee e. */
  function WeekHours(a: Assignment, e: int): int
  {
    Sum(NumDays, (j: nat) => DayHours(a, e, j + 1))
  }

  /** The number of hired slots among 1 .. n. */
  function HiredCount(f: HireFlags, n: nat): int
  {
    Sum(n, (k: nat) => Ind(Hired(f, k + 1)))
  }

  /** How many of employee e's shifts on day d cover hour h. */
  function OnFloor(a: Assignment, e: int, d: int, h: int): int
  {
    Sum(NumShifts, (i: nat) => Ind(Assigned(a, e, d, i + 1) && Covers(i + 1, h)))
  }

  /** assign.sum('*', d, <shifts covering h>) over a tier of n slots. */
  function TierCover(a: Assignment, n: nat, d: int, h: int): int
  {
    Sum(n, (k: nat) => OnFloor(a, k + 1, d, h))
  }

  /** The staff present at (d, h): the left-hand side of 'meet_demand'. */
  function Staffed(sol: Solution, numFull: nat, numPart: nat, d: int, h: int): int
  {
    TierCover(sol.assignFull, numFull, d, h) + TierCover(sol.assignPart, numPart, d, h)
  }

  // ---------------------------------------------------------------------
  // The constraints, one predicate per constraint family

  /** 'num_full' / 'num_part': nothing is assigned to an unhired slot. */
  predicate HireLinked(a: Assignment, f: HireFlags, n: nat)
  {
    forall e :: 1 <= e <= n ==> WeekShifts(a, e) <= BigM * Ind(Hired(f, e))
  }

  /** 'pf-ratio': part * (1 - pfrate) <= pfrate * full, scaled by 10. */
  predicate RatioRespected(sol: Solution, numFull: nat, numPart: nat)
  {
    (PfRateDen - PfRateNum) * HiredCount(sol.part, numPart)
      <= PfRateNum * HiredCount(sol.full, numFull)
  }

  /** 'wdays_full' / 'wdays_part': at most maxDays shifts a week, none if unhired. */
  predicate WorkdaysWithin(a: Assignment, f: HireFlags, n: nat, maxDays: int)
  {
    forall e :: 1 <= e <= n ==> WeekShifts(a, e) <= maxDays * Ind(Hired(f, e))
  }

  /** 'max_whours_full' / 'max_whours_part'. */
  predicate HoursAtMost(a: Assignment, f: HireFlags, n: nat, maxHours: int)
  {
    forall e :: 1 <= e <= n ==> WeekHours(a, e) <= maxHours * Ind(Hired(f, e))
  }

  /** 'min_whours_full'. */
  predicate HoursAtLeast(a: Assignment, f: HireFlags, n: nat, minHours: int)
  {
    forall e :: 1 <= e <= n ==> minHours * Ind(Hired(f, e)) <= WeekHours(a, e)
  }

  /** 'one_shift_day_full' / 'one_shift_day_part'. */
  predicate OneShiftPerDay(a: Assignment, f: HireFlags, n: nat)
  {
    forall e, d :: 1 <= e <= n && 1 <= d <= NumDays ==> ShiftsOnDay(a, e, d) <= Ind(Hired(f, e))
  }

  /** 'meet_demand'. */
  predicate DemandMet(hreq: Requirement, sol: Solution, numFull: nat, numPart: nat)
    requires CoversWeek(hreq)
  {
    forall d, h :: 1 <= d <= NumDays && OT <= h < CT ==> hreq[(d, h)] <= Staffed(sol, numFull, numPart, d, h)
  }

  /** 'symmetry_full' / 'symmetry_part'. */
  predicate SymmetryBroken(f: HireFlags, n: nat)
  {
    forall k :: 2 <= k <= n ==> Ind(Hired(f, k)) <= Ind(Hired(f, k - 1))
  }

  /** The part-time slots that also carry a full-time slot number. The
      coefficient tables dict_duration and dict_cost_part are keyed by the
      full-time slot numbers, and a product over a tuple dictionary only sums
      the keys both sides have. So 'max_whours_part' caps the hours of these
      slots alone (a slot above numFull gets the empty product, and its row
      0 <= PG * part[e] caps nothing), and the objective prices only their
      assignments. */
  function SharedSlots(numFull: nat, numPart: nat): (n: nat)
    ensures n <= numPart && n <= numFull
    ensures n == numPart || n == numFull
  {
    if numPart <= numFull then numPart else numFull
  }

  /** All constraints of the staffing program. */
  predicate Feasible(hreq: Requirement, numFull: nat, numPart: nat, sol: Solution)
    requires CoversWeek(hreq)
  {
    && HireLinked(sol.assignFull, sol.full, numFull)
    && HireLinked(sol.assignPart, sol.part, numPart)
    && RatioRespected(sol, numFull, numPart)
    && WorkdaysWithin(sol.assignFull, sol.full, numFull, FD)
    && WorkdaysWithin(sol.assignPart, sol.part, numPart, PD)
    && HoursAtMost(sol.assignFull, sol.full, numFull, FG)
    && HoursAtLeast(sol.assignFull, sol.full, numFull, PG)
    && HoursAtMost(sol.assignPart, sol.part, SharedSlots(numFull, numPart), PG)
    && OneShiftPerDay(sol.assignFull, sol.full, numFull)
    && OneShiftPerDay(sol.assignPart, sol.part, numPart)
    && DemandMet(hreq, sol, numFull, numPart)
    && SymmetryBroken(sol.full, numFull)
    && SymmetryBroken(sol.part, numPart)
  }

  // ---------------------------------------------------------------------
  // The objective

  /** dict_cost_full / dict_cost_part: the cost of one assignment to shift s. */
  function ShiftCost(s: int, rate: int): int
  {
    Duration(s) * rate
  }

  /** The cost of employee e's assignments on day d. */
  function DayCost(a: Assignment, e: int, d: int, rate: int): int
  {
    Sum(NumShifts, (i: nat) => Ind(Assigned(a, e, d, i + 1)) * ShiftCost(i + 1, rate))
  }

  /** The cost of employee e's assignments in the week. */
  function WeekCost(a: Assignment, e: int, rate: int): int
  {
    Sum(NumDays, (j: nat) => DayCost(a, e, j + 1, rate))
  }

  /** assign.prod(dict_cost): the cost of a tier's assignments, one term
      per (employee, day, shift) variable. */
  function TierCost(a: Assignment, n: nat, rate: int): int
  {
    Sum(n, (k: nat) => WeekCost(a, k + 1, rate))
  }

  /** The weekly labour cost. The part-time cost table is keyed by the
      full-time slot numbers, so only the shared slots are priced; with
      equal slot counts that is every part-time slot. */
  function Cost(sol: Solution, numFull: nat, numPart: nat): int
  {
    TierCost(sol.assignFull, numFull, CostF) + TierCost(sol.assignPart, SharedSlots(numFull, numPart), CostP)
  }
}
