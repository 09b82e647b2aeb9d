/** What the constraints of the staffing program guarantee about every
    feasible solution: idle unhired slots, the labour rules of each tier, the
    prefix shape of the hire flags, the part-time ratio, the head count of a
    cell and the bounds of the weekly cost. */
module StaffingProperties {
  import opened Sums
  import opened ShiftCatalog
  import opened StaffingModel

  /** Employee e works some shift on day d. */
  predicate WorksOn(a: Assignment, e: int, d: int)
  {
    exists s :: 1 <= s <= NumShifts && Assigned(a, e, d, s)
  }

  /** The number of days of the week on which employee e works. */
  function DaysWorked(a: Assignment, e: int): int
  {
    Sum(NumDays, (j: nat) => Ind(WorksOn(a, e, j + 1)))
  }

  // ---------------------------------------------------------------------
  // Bounds of one employee's expressions

  lemma IndAndAtMost(p: bool, q: bool)
    ensures 0 <= Ind(p && q) <= Ind(p)
  {
  }

  lemma IndTimesAtMost(p: bool, x: int, c: int)
    requires 0 <= x <= c
    ensures 0 <= Ind(p) * x <= c * Ind(p)
  {
  }

  lemma ShiftsOnDayNonNegative(a: Assignment, e: int, d: int)
    ensures 0 <= ShiftsOnDay(a, e, d)
  {
    SumAtLeast(NumShifts, (i: nat) => Ind(Assigned(a, e, d, i + 1)), 0);
  }

  /** An employee is present in a cell at most once per shift taken that day. */
  lemma OnFloorAtMostShifts(a: Assignment, e: int, d: int, h: int)
    ensures 0 <= OnFloor(a, e, d, h) <= ShiftsOnDay(a, e, d)
  {
    var taken := (i: nat) => Ind(Assigned(a, e, d, i + 1));
    var present := (i: nat) => Ind(Assigned(a, e, d, i + 1) && Covers(i + 1, h));
    forall i: nat | i < NumShifts ensures 0 <= present(i) <= taken(i) {
      IndAndAtMost(Assigned(a, e, d, i + 1), Covers(i + 1, h));
    }
    SumAtLeast(NumShifts, present, 0);
    SumMonotone(NumShifts, present, taken);
  }

  /** A shift lasts at most NumColumns hours. */
  lemma DayHoursAtMost(a: Assignment, e: int, d: int)
    ensures 0 <= DayHours(a, e, d) <= NumColumns * ShiftsOnDay(a, e, d)
  {
    var taken := (i: nat) => Ind(Assigned(a, e, d, i + 1));
    var hours := (i: nat) => Ind(Assigned(a, e, d, i + 1)) * Duration(i + 1);
    var longest := (i: nat) => NumColumns * Ind(Assigned(a, e, d, i + 1));
    forall i: nat | i < NumShifts ensures 0 <= hours(i) <= longest(i) {
      DurationIsSpan(i + 1);
      IndTimesAtMost(Assigned(a, e, d, i + 1), Duration(i + 1), NumColumns);
    }
    SumAtLeast(NumShifts, hours, 0);
    SumMonotone(NumShifts, hours, longest);
    SumScaled(NumShifts, taken, longest, NumColumns);
  }

  /** An employee's weekly hours are at most NumColumns per assigned shift. */
  lemma WeekBounds(a: Assignment, e: int)
    ensures 0 <= WeekShifts(a, e)
    ensures 0 <= WeekHours(a, e) <= NumColumns * WeekShifts(a, e)
  {
    var shifts := (j: nat) => ShiftsOnDay(a, e, j + 1);
    var hours := (j: nat) => DayHours(a, e, j + 1);
    var longest := (j: nat) => NumColumns * ShiftsOnDay(a, e, j + 1);
    forall j: nat | j < NumDays ensures 0 <= shifts(j) && 0 <= hours(j) <= longest(j) {
      ShiftsOnDayNonNegative(a, e, j + 1);
      DayHoursAtMost(a, e, j + 1);
    }
    SumAtLeast(NumDays, shifts, 0);
    SumAtLeast(NumDays, hours, 0);
    SumMonotone(NumDays, hours, longest);
    SumScaled(NumDays, shifts, longest, NumColumns);
  }

  /** The number of hired slots among 1 .. n is between 0 and n. */
  lemma HiredCountBounds(f: HireFlags, n: nat)
    ensures 0 <= HiredCount(f, n) <= n
  {
    var hired := (k: nat) => Ind(Hired(f, k + 1));
    SumAtLeast(n, hired, 0);
    SumAtMost(n, hired, 1);
  }

  /** Fewer slots hold no more hires. */
  lemma HiredCountWithin(f: HireFlags, m: nat, n: nat)
    requires m <= n
    ensures HiredCount(f, m) <= HiredCount(f, n)
  {
    SumPrefixAtMost(m, n, (k: nat) => Ind(Hired(f, k + 1)));
  }

  // ---------------------------------------------------------------------
  // Hire linking

  /** A slot that is not hired works no shift, so it adds no hours (hence
      no cost) and no head count to any cell. The workday bound alone
      forces this. */
  lemma UnhiredIdle(a: Assignment, f: HireFlags, n: nat, maxDays: int, e: int)
    requires WorkdaysWithin(a, f, n, maxDays)
    requires 1 <= e <= n && !Hired(f, e)
    ensures forall d, s :: IsDay(d) && IsShift(s) ==> !Assigned(a, e, d, s)
    ensures WeekShifts(a, e) == 0 && WeekHours(a, e) == 0
    ensures forall d, h :: IsDay(d) ==> OnFloor(a, e, d, h) == 0
  {
    WeekBounds(a, e);
    assert WeekShifts(a, e) == 0;
    NoWeekShiftsNoDayShifts(a, e);
    forall d, s | IsDay(d) && IsShift(s) ensures !Assigned(a, e, d, s) {
      NoDayShiftsNoAssignment(a, e, d);
    }
    forall d, h | IsDay(d) ensures OnFloor(a, e, d, h) == 0 {
      OnFloorAtMostShifts(a, e, d, h);
    }
  }

  lemma NoWeekShiftsNoDayShifts(a: Assignment, e: int)
    requires WeekShifts(a, e) == 0
    ensures forall d :: IsDay(d) ==> ShiftsOnDay(a, e, d) == 0
  {
    var shifts := (j: nat) => ShiftsOnDay(a, e, j + 1);
    forall j: nat | j < NumDays ensures 0 <= shifts(j) {
      ShiftsOnDayNonNegative(a, e, j + 1);
    }
    SumZeroTerms(NumDays, shifts);
    forall d | IsDay(d) ensures ShiftsOnDay(a, e, d) == 0 {
      assert shifts(d - 1) == 0;
    }
  }

  lemma NoDayShiftsNoAssignment(a: Assignment, e: int, d: int)
    requires ShiftsOnDay(a, e, d) == 0
    ensures forall s :: IsShift(s) ==> !Assigned(a, e, d, s)
  {
    var taken := (i: nat) => Ind(Assigned(a, e, d, i + 1));
    SumAtLeast(NumShifts, taken, 0);
    SumZeroTerms(NumShifts, taken);
    forall s | IsShift(s) ensures !Assigned(a, e, d, s) {
      assert taken(s - 1) == 0;
    }
  }

  /** The big-M link is implied by the workday bound: a tier that keeps
      within at most BigM workdays keeps the hire link. */
  lemma WorkdayLimitImpliesHireLink(a: Assignment, f: HireFlags, n: nat, maxDays: int)
    requires 0 <= maxDays <= BigM
    requires WorkdaysWithin(a, f, n, maxDays)
    ensures HireLinked(a, f, n)
  {
  }

  // ---------------------------------------------------------------------
  // Labour rules per tier

  /** Under one shift per day, the weekly number of shifts is the number of
      days worked, so the workday constraints do bound days. */
  lemma ShiftCountIsWorkdays(a: Assignment, f: HireFlags, n: nat, e: int)
    requires OneShiftPerDay(a, f, n)
    requires 1 <= e <= n
    ensures WeekShifts(a, e) == DaysWorked(a, e)
  {
    var shifts := (j: nat) => ShiftsOnDay(a, e, j + 1);
    var worked := (j: nat) => Ind(WorksOn(a, e, j + 1));
    forall j: nat | j < NumDays ensures shifts(j) == worked(j) {
      DayShiftIsWorkday(a, f, n, e, j + 1);
    }
    SumCongruent(NumDays, shifts, worked);
  }

  /** Under one shift per day, the shifts of a day are 1 if the employee
      works that day and 0 otherwise. */
  lemma DayShiftIsWorkday(a: Assignment, f: HireFlags, n: nat, e: int, d: int)
    requires OneShiftPerDay(a, f, n)
    requires 1 <= e <= n && IsDay(d)
    ensures ShiftsOnDay(a, e, d) == Ind(WorksOn(a, e, d))
  {
    var taken := (i: nat) => Ind(Assigned(a, e, d, i + 1));
    assert ShiftsOnDay(a, e, d) <= 1;
    if WorksOn(a, e, d) {
      var s :| 1 <= s <= NumShifts && Assigned(a, e, d, s);
      SumAtLeast(NumShifts, taken, 0);
      TermAtMostSum(NumShifts, taken, s - 1);
    } else {
      SumAtMost(NumShifts, taken, 0);
      ShiftsOnDayNonNegative(a, e, d);
    }
  }

  /** A hired full-time member works 3 to FD days and PG to FG hours a week;
      at least 3 days because no shift is longer than NumColumns hours. */
  lemma HiredFullTimeRules(hreq: Requirement, numFull: nat, numPart: nat, sol: Solution, e: int)
    requires CoversWeek(hreq) && Feasible(hreq, numFull, numPart, sol)
    requires 1 <= e <= numFull && Hired(sol.full, e)
    ensures 3 <= DaysWorked(sol.assignFull, e) <= FD
    ensures PG <= WeekHours(sol.assignFull, e) <= FG
  {
    WeekBounds(sol.assignFull, e);
    ShiftCountIsWorkdays(sol.assignFull, sol.full, numFull, e);
  }

  /** A hired part-time member works at most PD days a week, and at most PG
      hours when its slot number is also a full-time slot number (the hour
      cap's coefficients exist only for those). */
  lemma HiredPartTimeRules(hreq: Requirement, numFull: nat, numPart: nat, sol: Solution, e: int)
    requires CoversWeek(hreq) && Feasible(hreq, numFull, numPart, sol)
    requires 1 <= e <= numPart && Hired(sol.part, e)
    ensures 0 <= DaysWorked(sol.assignPart, e) <= PD
    ensures 0 <= WeekHours(sol.assignPart, e)
    ensures e <= numFull ==> WeekHours(sol.assignPart, e) <= PG
  {
    WeekBounds(sol.assignPart, e);
    ShiftCountIsWorkdays(sol.assignPart, sol.part, numPart, e);
  }

  // ---------------------------------------------------------------------
  // Symmetry breaking

  /** Under symmetry breaking the hired slots are exactly 1 .. HiredCount:
      slot k is hired if and only if k is at most the number hired. */
  lemma {:induction false} HiresFormPrefix(f: HireFlags, n: nat)
    requires SymmetryBroken(f, n)
    ensures 0 <= HiredCount(f, n) <= n
    ensures forall k :: 1 <= k <= n ==> (Hired(f, k) <==> k <= HiredCount(f, n))
  {
    if n > 0 {
      HiresFormPrefix(f, n - 1);
      assert HiredCount(f, n) == HiredCount(f, n - 1) + Ind(Hired(f, n));
      if Hired(f, n) && n > 1 {
        assert Hired(f, n - 1);
      }
    }
  }

  /** In a feasible solution hired slots of both tiers are a prefix. */
  lemma FeasibleHiresFormPrefix(hreq: Requirement, numFull: nat, numPart: nat, sol: Solution)
    requires CoversWeek(hreq) && Feasible(hreq, numFull, numPart, sol)
    ensures forall k :: 1 <= k <= numFull ==> (Hired(sol.full, k) <==> k <= HiredCount(sol.full, numFull))
    ensures forall k :: 1 <= k <= numPart ==> (Hired(sol.part, k) <==> k <= HiredCount(sol.part, numPart))
  {
    HiresFormPrefix(sol.full, numFull);
    HiresFormPrefix(sol.part, numPart);
  }

  // ---------------------------------------------------------------------
  // The part-time ratio

  /** The ratio constraint with pfrate = 0.3 read in real numbers is the
      integer constraint 7 P <= 3 F, which says that part-time staff are at
      most 30% of all hired staff. */
  lemma RatioMeaning(sol: Solution, numFull: nat, numPart: nat)
    ensures var p, f := HiredCount(sol.part, numPart), HiredCount(sol.full, numFull);
      && (RatioRespected(sol, numFull, numPart) <==> (p as real) * (1.0 - 0.3) <= 0.3 * (f as real))
      && (RatioRespected(sol, numFull, numPart) <==> 10 * p <= 3 * (p + f))
  {
  }

  /** Hiring any part-time member needs at least three full-time hires. */
  lemma PartTimeNeedsFullTime(hreq: Requirement, numFull: nat, numPart: nat, sol: Solution)
    requires CoversWeek(hreq) && Feasible(hreq, numFull, numPart, sol)
    requires 0 < HiredCount(sol.part, numPart)
    ensures 3 <= HiredCount(sol.full, numFull)
  {
  }

  // ---------------------------------------------------------------------
  // Head count of a cell

  /** Each employee adds at most one to a cell, and nothing when unhired;
      so a tier puts at most its hired count into any cell. */
  lemma TierCoverAtMostHired(a: Assignment, f: HireFlags, n: nat, d: int, h: int)
    requires OneShiftPerDay(a, f, n)
    requires IsDay(d)
    ensures forall e :: 1 <= e <= n ==> OnFloor(a, e, d, h) <= Ind(Hired(f, e))
    ensures 0 <= TierCover(a, n, d, h) <= HiredCount(f, n)
  {
    var present := (k: nat) => OnFloor(a, k + 1, d, h);
    var hired := (k: nat) => Ind(Hired(f, k + 1));
    forall k: nat | k < n ensures 0 <= present(k) <= hired(k) {
      OnFloorAtMostShifts(a, k + 1, d, h);
    }
    forall e | 1 <= e <= n ensures OnFloor(a, e, d, h) <= Ind(Hired(f, e)) {
      assert present(e - 1) <= hired(e - 1);
    }
    SumAtLeast(n, present, 0);
    SumMonotone(n, present, hired);
  }

  /** In a feasible solution every cell holds at least its requirement and
      at most the hired staff of both tiers (so at most numFull + numPart). */
  lemma StaffedBetweenDemandAndHires(hreq: Requirement, numFull: nat, numPart: nat, sol: Solution, d: int, h: int)
    requires CoversWeek(hreq) && Feasible(hreq, numFull, numPart, sol)
    requires IsDay(d) && IsHour(h)
    ensures hreq[(d, h)] <= Staffed(sol, numFull, numPart, d, h)
    ensures Staffed(sol, numFull, numPart, d, h) <= HiredCount(sol.full, numFull) + HiredCount(sol.part, numPart)
    ensures Staffed(sol, numFull, numPart, d, h) <= numFull + numPart
  {
    TierCoverAtMostHired(sol.assignFull, sol.full, numFull, d, h);
    TierCoverAtMostHired(sol.assignPart, sol.part, numPart, d, h);
    HiredCountBounds(sol.full, numFull);
    HiredCountBounds(sol.part, numPart);
  }

  /** A requirement above the two pools together admits no feasible solution. */
  lemma InfeasibleWhenDemandExceedsPool(hreq: Requirement, numFull: nat, numPart: nat, sol: Solution, d: int, h: int)
    requires CoversWeek(hreq)
    requires IsDay(d) && IsHour(h)
    requires numFull + numPart < hreq[(d, h)]
    ensures !Feasible(hreq, numFull, numPart, sol)
  {
    if Feasible(hreq, numFull, numPart, sol) {
      StaffedBetweenDemandAndHires(hreq, numFull, numPart, sol, d, h);
    }
  }

  // ---------------------------------------------------------------------
  // The weekly cost

  /** The total weekly hours of a tier's slots 1 .. n. */
  function TierHours(a: Assignment, n: nat): int
  {
    Sum(n, (k: nat) => WeekHours(a, k + 1))
  }

  /** A tier's cost is its hourly rate times its total weekly hours. */
  lemma TierCostIsRateTimesHours(a: Assignment, n: nat, rate: int)
    ensures TierCost(a, n, rate) == rate * TierHours(a, n)
  {
    var cost := (k: nat) => WeekCost(a, k + 1, rate);
    var hours := (k: nat) => WeekHours(a, k + 1);
    var scaled := (k: nat) => rate * WeekHours(a, k + 1);
    forall k: nat | k < n ensures cost(k) == scaled(k) {
      WeekCostIsRateTimesHours(a, k + 1, rate);
    }
    SumCongruent(n, cost, scaled);
    SumScaled(n, hours, scaled, rate);
  }

  /** An employee's weekly cost is the rate times the weekly hours. */
  lemma WeekCostIsRateTimesHours(a: Assignment, e: int, rate: int)
    ensures WeekCost(a, e, rate) == rate * WeekHours(a, e)
  {
    var cost := (j: nat) => DayCost(a, e, j + 1, rate);
    var hours := (j: nat) => DayHours(a, e, j + 1);
    var scaled := (j: nat) => rate * DayHours(a, e, j + 1);
    forall j: nat | j < NumDays ensures cost(j) == scaled(j) {
      DayCostIsRateTimesHours(a, e, j + 1, rate);
    }
    SumCongruent(NumDays, cost, scaled);
    SumScaled(NumDays, hours, scaled, rate);
  }

  /** An employee's cost on a day is the rate times the hours of that day. */
  lemma DayCostIsRateTimesHours(a: Assignment, e: int, d: int, rate: int)
    ensures DayCost(a, e, d, rate) == rate * DayHours(a, e, d)
  {
    SumScaled(NumShifts,
      (i: nat) => Ind(Assigned(a, e, d, i + 1)) * Duration(i + 1),
      (i: nat) => Ind(Assigned(a, e, d, i + 1)) * ShiftCost(i + 1, rate),
      rate);
  }

  /** A tier's total weekly hours are non-negative. */
  lemma TierHoursNonNegative(a: Assignment, n: nat)
    ensures 0 <= TierHours(a, n)
  {
    var hours := (k: nat) => WeekHours(a, k + 1);
    forall k: nat | k < n ensures 0 <= hours(k) {
      WeekBounds(a, k + 1);
    }
    SumAtLeast(n, hours, 0);
  }

  /** Under a weekly hour cap the tier works at most the cap per hire. */
  lemma TierHoursAtMost(a: Assignment, f: HireFlags, n: nat, maxHours: int)
    requires HoursAtMost(a, f, n, maxHours)
    ensures TierHours(a, n) <= maxHours * HiredCount(f, n)
  {
    var hours := (k: nat) => WeekHours(a, k + 1);
    var hired := (k: nat) => Ind(Hired(f, k + 1));
    var cap := (k: nat) => maxHours * Ind(Hired(f, k + 1));
    SumMonotone(n, hours, cap);
    SumScaled(n, hired, cap, maxHours);
  }

  /** Under a weekly hour floor the tier works at least the floor per hire. */
  lemma TierHoursAtLeast(a: Assignment, f: HireFlags, n: nat, minHours: int)
    requires HoursAtLeast(a, f, n, minHours)
    ensures minHours * HiredCount(f, n) <= TierHours(a, n)
  {
    var hours := (k: nat) => WeekHours(a, k + 1);
    var hired := (k: nat) => Ind(Hired(f, k + 1));
    var floor := (k: nat) => minHours * Ind(Hired(f, k + 1));
    SumMonotone(n, floor, hours);
    SumScaled(n, hired, floor, minHours);
  }

  /** The weekly cost of any assignment is non-negative. */
  lemma CostNonNegative(sol: Solution, numFull: nat, numPart: nat)
    ensures 0 <= Cost(sol, numFull, numPart)
  {
    var shared := SharedSlots(numFull, numPart);
    TierCostIsRateTimesHours(sol.assignFull, numFull, CostF);
    TierCostIsRateTimesHours(sol.assignPart, shared, CostP);
    TierHoursNonNegative(sol.assignFull, numFull);
    TierHoursNonNegative(sol.assignPart, shared);
  }

  /** A feasible solution costs at least CostF * PG per hired full-time
      member, and at most CostF * FG per hired full-time and CostP * PG per
      hired part-time member: at most 600 numFull + 270 numPart. */
  lemma CostBounds(hreq: Requirement, numFull: nat, numPart: nat, sol: Solution)
    requires CoversWeek(hreq) && Feasible(hreq, numFull, numPart, sol)
    ensures CostF * PG * HiredCount(sol.full, numFull) <= Cost(sol, numFull, numPart)
    ensures Cost(sol, numFull, numPart)
      <= CostF * FG * HiredCount(sol.full, numFull) + CostP * PG * HiredCount(sol.part, numPart)
    ensures Cost(sol, numFull, numPart) <= 600 * numFull + 270 * numPart
  {
    var shared := SharedSlots(numFull, numPart);
    TierCostIsRateTimesHours(sol.assignFull, numFull, CostF);
    TierCostIsRateTimesHours(sol.assignPart, shared, CostP);
    TierHoursAtLeast(sol.assignFull, sol.full, numFull, PG);
    TierHoursAtMost(sol.assignFull, sol.full, numFull, FG);
    TierHoursAtMost(sol.assignPart, sol.part, shared, PG);
    TierHoursNonNegative(sol.assignPart, shared);
    HiredCountWithin(sol.part, shared, numPart);
    HiredCountBounds(sol.full, numFull);
    HiredCountBounds(sol.part, numPart);
  }

  // ---------------------------------------------------------------------
  // The idle solution

  /** With no assignment an employee has no shift and no hours on a day. */
  lemma IdleDay(e: int, d: int)
    ensures ShiftsOnDay(map[], e, d) == 0 && DayHours(map[], e, d) == 0
  {
    var none: Assignment := map[];
    SumAtMost(NumShifts, (i: nat) => Ind(Assigned(none, e, d, i + 1)), 0);
    SumAtLeast(NumShifts, (i: nat) => Ind(Assigned(none, e, d, i + 1)), 0);
    SumAtMost(NumShifts, (i: nat) => Ind(Assigned(none, e, d, i + 1)) * Duration(i + 1), 0);
    SumAtLeast(NumShifts, (i: nat) => Ind(Assigned(none, e, d, i + 1)) * Duration(i + 1), 0);
  }

  /** With no assignment an employee has no shift and no hours in the week. */
  lemma IdleWeek(e: int)
    ensures WeekShifts(map[], e) == 0 && WeekHours(map[], e) == 0
  {
    var none: Assignment := map[];
    var shifts := (j: nat) => ShiftsOnDay(none, e, j + 1);
    var hours := (j: nat) => DayHours(none, e, j + 1);
    forall j: nat | j < NumDays ensures shifts(j) == 0 && hours(j) == 0 {
      IdleDay(e, j + 1);
    }
    SumAtMost(NumDays, shifts, 0);
    SumAtLeast(NumDays, shifts, 0);
    SumAtMost(NumDays, hours, 0);
    SumAtLeast(NumDays, hours, 0);
  }

  /** With no assignment a tier puts nobody on the floor, and with no hire
      flag it hires nobody. */
  lemma IdleTier(n: nat, d: int, h: int)
    ensures TierCover(map[], n, d, h) == 0
    ensures HiredCount(map[], n) == 0
  {
    var none: Assignment := map[];
    var present := (k: nat) => OnFloor(none, k + 1, d, h);
    forall k: nat | k < n ensures present(k) == 0 {
      IdleDay(k + 1, d);
      OnFloorAtMostShifts(none, k + 1, d, h);
    }
    SumAtMost(n, present, 0);
    SumAtLeast(n, present, 0);
    SumAtMost(n, (k: nat) => Ind(Hired(map[], k + 1)), 0);
    SumAtLeast(n, (k: nat) => Ind(Hired(map[], k + 1)), 0);
  }

  /** A tier with no assignment and no hire keeps every per-tier rule,
      whatever its bounds. */
  lemma IdleTierKeepsRules(n: nat, maxDays: int, maxHours: int, minHours: int)
    ensures HireLinked(map[], map[], n)
    ensures WorkdaysWithin(map[], map[], n, maxDays)
    ensures HoursAtMost(map[], map[], n, maxHours)
    ensures HoursAtLeast(map[], map[], n, minHours)
    ensures OneShiftPerDay(map[], map[], n)
    ensures SymmetryBroken(map[], n)
  {
    forall e ensures WeekShifts(map[], e) == 0 && WeekHours(map[], e) == 0 {
      IdleWeek(e);
    }
    forall e, d ensures ShiftsOnDay(map[], e, d) == 0 {
      IdleDay(e, d);
    }
  }

  /** When no cell requires staff, hiring nobody is feasible and costs
      nothing, so the staffing program always has a solution then. */
  lemma IdleSolutionFeasible(hreq: Requirement, numFull: nat, numPart: nat)
    requires CoversWeek(hreq)
    requires forall d, h :: 1 <= d <= NumDays && OT <= h < CT ==> hreq[(d, h)] <= 0
    ensures Feasible(hreq, numFull, numPart, Solution(map[], map[], map[], map[]))
    ensures Cost(Solution(map[], map[], map[], map[]), numFull, numPart) == 0
  {
    var idle := Solution(map[], map[], map[], map[]);
    IdleTierKeepsRules(numFull, FD, FG, PG);
    IdleTierKeepsRules(numPart, PD, PG, 0);
    IdleTierKeepsRules(SharedSlots(numFull, numPart), PD, PG, 0);
    forall d, h ensures TierCover(map[], numFull, d, h) == 0 && TierCover(map[], numPart, d, h) == 0 {
      IdleTier(numFull, d, h);
      IdleTier(numPart, d, h);
    }
    IdleTier(numFull, 1, OT);
    IdleTier(numPart, 1, OT);
    IdleCost(numFull, numPart);
  }

  /** The idle solution costs nothing. */
  lemma IdleCost(numFull: nat, numPart: nat)
    ensures Cost(Solution(map[], map[], map[], map[]), numFull, numPart) == 0
  {
    var none: Assignment := map[];
    var shared := SharedSlots(numFull, numPart);
    TierCostIsRateTimesHours(none, numFull, CostF);
    TierCostIsRateTimesHours(none, shared, CostP);
    IdleTierHours(numFull);
    IdleTierHours(shared);
  }

  /** A tier with no assignment works no hours. */
  lemma IdleTierHours(n: nat)
    ensures TierHours(map[], n) == 0
  {
    var none: Assignment := map[];
    var hours := (k: nat) => WeekHours(none, k + 1);
    forall k: nat | k < n ensures hours(k) == 0 {
      IdleWeek(k + 1);
    }
    SumAtMost(n, hours, 0);
    SumAtLeast(n, hours, 0);
  }
}
