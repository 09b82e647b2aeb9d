/** build_schedule: the occupancy table of a solved assignment, counted cell
    by cell with the same nested loops as the store's script (days, hours,
    shifts covering the hour, employees), and proved equal to the head count
    that the demand constraint of the staffing program bounds. */
module ScheduleBuilder {
  import opened Sums
  import opened ShiftCatalog
  import opened StaffingModel
  import opened StaffingProperties

  /** Head count per (day, hour). */
  type Schedule = map<Cell, int>

  /** The occupancy table the staffing program speaks of: for every cell of
      the week, the full-time plus the part-time staff on the floor. */
  function Occupancy(x: Assignment, y: Assignment, n: nat): (r: Schedule)
    ensures forall c :: c in r <==> IsCell(c)
  {
    map c: Cell | c in CellsOfWeek() :: TierCover(x, n, c.0, c.1) + TierCover(y, n, c.0, c.1)
  }

  /** The 84 cells of the week. */
  function CellsOfWeek(): (r: set<Cell>)
    ensures forall c :: c in r <==> IsCell(c)
  {
    set d, h | 1 <= d <= NumDays && OT <= h < CT :: (d, h)
  }

  // ---------------------------------------------------------------------
  // The count in the order the loops take it

  /** Employees 1 .. k of both tiers working shift s on day d. */
  function ShiftHeadCount(x: Assignment, y: Assignment, k: nat, d: int, s: int): int
  {
    Sum(k, (i: nat) => Ind(Assigned(x, i + 1, d, s)) + Ind(Assigned(y, i + 1, d, s)))
  }

  /** Staff of slots 1 .. n on shifts 1 .. m of day d that cover hour h. */
  function ScanCount(x: Assignment, y: Assignment, n: nat, d: int, h: int, m: nat): int
  {
    Sum(m, (j: nat) => if Covers(j + 1, h) then ShiftHeadCount(x, y, n, d, j + 1) else 0)
  }

  lemma ScanCountStep(x: Assignment, y: Assignment, n: nat, d: int, h: int, m: nat)
    ensures ScanCount(x, y, n, d, h, m + 1)
      == ScanCount(x, y, n, d, h, m) + (if Covers(m + 1, h) then ShiftHeadCount(x, y, n, d, m + 1) else 0)
  {
  }

  lemma ShiftHeadCountStep(x: Assignment, y: Assignment, k: nat, d: int, s: int)
    ensures ShiftHeadCount(x, y, k + 1, d, s)
      == ShiftHeadCount(x, y, k, d, s) + Ind(Assigned(x, k + 1, d, s)) + Ind(Assigned(y, k + 1, d, s))
  {
  }

  /** Whether slot i + 1 of either tier is on the floor at hour h of day d
      through shift j + 1, as a sum of two indicators. */
  function Present(x: Assignment, y: Assignment, d: int, h: int, j: nat, i: nat): int
  {
    Ind(Assigned(x, i + 1, d, j + 1) && Covers(j + 1, h)) + Ind(Assigned(y, i + 1, d, j + 1) && Covers(j + 1, h))
  }

  /** Counting shift by shift gives the same total as counting employee by
      employee, which is how the demand constraint sums. */
  lemma ScanCountIsStaffed(x: Assignment, y: Assignment, n: nat, d: int, h: int)
    ensures ScanCount(x, y, n, d, h, NumShifts) == TierCover(x, n, d, h) + TierCover(y, n, d, h)
  {
    var g := (j: nat, i: nat) => Present(x, y, d, h, j, i);
    ScanIsShiftMajor(x, y, n, d, h, g);
    SumSwap(NumShifts, n, g);
    EmployeeMajorIsStaffed(x, y, n, d, h, g);
  }

  lemma ScanIsShiftMajor(x: Assignment, y: Assignment, n: nat, d: int, h: int, g: (nat, nat) -> int)
    requires forall j: nat, i: nat :: g(j, i) == Present(x, y, d, h, j, i)
    ensures ScanCount(x, y, n, d, h, NumShifts) == Sum(NumShifts, (j: nat) => Sum(n, (i: nat) => g(j, i)))
  {
    var byShift := (j: nat) => Sum(n, (i: nat) => g(j, i));
    var scanTerm := (j: nat) => if Covers(j + 1, h) then ShiftHeadCount(x, y, n, d, j + 1) else 0;
    forall j: nat | j < NumShifts ensures scanTerm(j) == byShift(j) {
      ShiftTermMatches(x, y, n, d, h, j, g);
    }
    SumCongruent(NumShifts, scanTerm, byShift);
  }

  lemma EmployeeMajorIsStaffed(x: Assignment, y: Assignment, n: nat, d: int, h: int, g: (nat, nat) -> int)
    requires forall j: nat, i: nat :: g(j, i) == Present(x, y, d, h, j, i)
    ensures Sum(n, (i: nat) => Sum(NumShifts, (j: nat) => g(j, i))) == TierCover(x, n, d, h) + TierCover(y, n, d, h)
  {
    var byEmployee := (i: nat) => Sum(NumShifts, (j: nat) => g(j, i));
    var fullTerm := (i: nat) => OnFloor(x, i + 1, d, h);
    var partTerm := (i: nat) => OnFloor(y, i + 1, d, h);
    forall i: nat | i < n ensures byEmployee(i) == fullTerm(i) + partTerm(i) {
      EmployeeTermMatches(x, y, d, h, i, g);
    }
    SumOfSums(n, fullTerm, partTerm, byEmployee);
  }

  lemma ShiftTermMatches(x: Assignment, y: Assignment, n: nat, d: int, h: int, j: nat, g: (nat, nat) -> int)
    requires forall j': nat, i: nat :: g(j', i) == Present(x, y, d, h, j', i)
    ensures (if Covers(j + 1, h) then ShiftHeadCount(x, y, n, d, j + 1) else 0) == Sum(n, (i: nat) => g(j, i))
  {
    var term := (i: nat) => g(j, i);
    if Covers(j + 1, h) {
      SumCongruent(n, (i: nat) => Ind(Assigned(x, i + 1, d, j + 1)) + Ind(Assigned(y, i + 1, d, j + 1)), term);
    } else {
      SumAtMost(n, term, 0);
      SumAtLeast(n, term, 0);
    }
  }

  lemma EmployeeTermMatches(x: Assignment, y: Assignment, d: int, h: int, i: nat, g: (nat, nat) -> int)
    requires forall j: nat, i': nat :: g(j, i') == Present(x, y, d, h, j, i')
    ensures Sum(NumShifts, (j: nat) => g(j, i)) == OnFloor(x, i + 1, d, h) + OnFloor(y, i + 1, d, h)
  {
    var e := i + 1;
    SumOfSums(NumShifts,
      (j: nat) => Ind(Assigned(x, e, d, j + 1) && Covers(j + 1, h)),
      (j: nat) => Ind(Assigned(y, e, d, j + 1) && Covers(j + 1, h)),
      (j: nat) => g(j, i));
  }

  // ---------------------------------------------------------------------
  // The loops

  /** Fills the table cell by cell: for each day and hour of the week the
      entry is the head count StaffAt takes. */
  method BuildSchedule(x: Assignment, y: Assignment, numFull: nat) returns (schedule: Schedule)
    requires HasAllKeys(x, numFull) && HasAllKeys(y, numFull)
    ensures schedule == Occupancy(x, y, numFull)
  {
    ghost var table := Occupancy(x, y, numFull);
    schedule := map[];
    var day := 1;
    while day <= NumDays
      invariant 1 <= day <= NumDays + 1
      invariant forall c :: c in schedule <==> IsCell(c) && c.0 < day
      invariant forall c :: c in schedule ==> schedule[c] == table[c]
    {
      var hour := OT;
      while hour < CT
        invariant OT <= hour <= CT
        invariant forall c :: c in schedule <==> IsCell(c) && (c.0 < day || (c.0 == day && c.1 < hour))
        invariant forall c :: c in schedule ==> schedule[c] == table[c]
      {
        var numPeople := StaffAt(x, y, numFull, day, hour);
        schedule := schedule[(day, hour) := numPeople];
        hour := hour + 1;
      }
      day := day + 1;
    }
  }

  /** The head count of one cell: one for every full-time and every
      part-time slot working, on day d, a shift that covers hour h. Both
      tiers are scanned over the full-time slot numbers, so the count
      includes every part-time slot only when the tiers have the same number
      of slots; every variable read must have a value. */
  method StaffAt(x: Assignment, y: Assignment, numFull: nat, day: int, hour: int) returns (numPeople: int)
    requires HasAllKeys(x, numFull) && HasAllKeys(y, numFull)
    requires IsDay(day) && IsHour(hour)
    ensures numPeople == TierCover(x, numFull, day, hour) + TierCover(y, numFull, day, hour)
  {
    numPeople := 0;
    var shift := 1;
    while shift <= NumShifts
      invariant 1 <= shift <= NumShifts + 1
      invariant numPeople == ScanCount(x, y, numFull, day, hour, shift - 1)
    {
      ScanCountStep(x, y, numFull, day, hour, shift - 1);
      if ScheduleMatrix[shift - 1][hour - OT] == 1 {
        var employee := 1;
        while employee <= numFull
          invariant 1 <= employee <= numFull + 1
          invariant numPeople == ScanCount(x, y, numFull, day, hour, shift - 1)
            + ShiftHeadCount(x, y, employee - 1, day, shift)
        {
          ShiftHeadCountStep(x, y, employee - 1, day, shift);
          if x[(employee, day, shift)] {
            numPeople := numPeople + 1;
          }
          if y[(employee, day, shift)] {
            numPeople := numPeople + 1;
          }
          employee := employee + 1;
        }
      }
      shift := shift + 1;
    }
    ScanCountIsStaffed(x, y, numFull, day, hour);
  }

  // ---------------------------------------------------------------------
  // What the table shows for a feasible solution

  /** The table built from a feasible solution meets the requirement of
      every cell and holds no more than the hired staff of both tiers. */
  lemma FeasibleOccupancyMeetsDemand(hreq: Requirement, numFull: nat, sol: Solution)
    requires CoversWeek(hreq) && Feasible(hreq, numFull, numFull, sol)
    ensures forall c :: IsCell(c) ==> hreq[c] <= Occupancy(sol.assignFull, sol.assignPart, numFull)[c]
    ensures forall c :: IsCell(c) ==>
      Occupancy(sol.assignFull, sol.assignPart, numFull)[c] <= HiredCount(sol.full, numFull) + HiredCount(sol.part, numFull)
  {
    var table := Occupancy(sol.assignFull, sol.assignPart, numFull);
    forall c | IsCell(c)
      ensures hreq[c] <= table[c] <= HiredCount(sol.full, numFull) + HiredCount(sol.part, numFull)
    {
      StaffedBetweenDemandAndHires(hreq, numFull, numFull, sol, c.0, c.1);
    }
  }
}
