/** The fixed catalogue of shift patterns of the store: 28 shifts, each a
    row of 0/1 flags over the twelve opening hours 10:00 .. 21:00, and the
    length of each shift in hours (breaks included). Shifts are numbered
    from 1 and hours are clock hours, so shift `s` at hour `h` is the entry
    in row `s - 1`, column `h - OT`. */
module ShiftCatalog {

  /** Opening and closing time of the store (clock hours). */
  const OT: int := 10
  const CT: int := 22
  /** Number of hourly columns of a shift row. */
  const NumColumns: nat := 12

  type Bit = b: int | 0 <= b <= 1

  /** One shift: a 0/1 flag per opening hour. */
  type Row = r: seq<Bit> | |r| == 12 witness [0, 0, 0, 0, 0, 0, 0, 0, 0, 0, 0, 0]

  const ScheduleMatrix: seq<Row> := [
    [1,1,1,0,1,1,1,0,0,0,0,0],
    [1,1,1,1,0,1,1,1,1,0,0,0],
    [1,1,1,1,1,0,1,1,1,0,0,0],
    [1,1,1,1,0,1,1,0,1,0,0,0],
    [1,1,1,1,0,1,1,0,1,1,1,0],
    [1,1,1,1,1,0,1,1,1,1,1,0],
    [1,1,1,1,0,1,1,1,1,1,1,1],
    [1,1,1,1,1,0,1,1,1,1,1,1],
    [1,1,1,1,1,1,0,1,1,1,1,1],
    [0,1,1,1,0,1,1,1,1,0,0,0],
    [0,1,1,1,1,0,1,1,1,0,0,0],
    [0,1,1,1,1,0,1,1,1,1,0,0],
    [0,1,1,1,1,0,1,1,1,1,1,1],
    [0,1,1,1,1,1,0,1,1,1,1,1],
    [0,1,1,1,1,1,1,0,1,1,1,1],
    [0,0,1,1,1,1,0,0,0,0,0,0],
    [0,0,1,1,1,1,0,1,1,0,0,0],
    [0,0,1,1,1,1,0,1,1,1,1,1],
    [0,0,1,1,1,1,1,0,1,1,1,1],
    [0,0,0,1,1,1,1,0,0,0,0,0],
    [0,0,0,1,1,1,1,0,1,1,1,1],
    [0,0,0,0,1,1,1,1,0,0,0,0],
    [0,0,0,0,1,1,1,1,0,1,1,0],
    [0,0,0,0,1,1,1,1,1,0,1,1],
    [0,0,0,0,0,1,1,1,1,0,0,0],
    [0,0,0,0,0,1,1,1,1,0,1,1],
    [0,0,0,0,0,0,1,1,1,1,0,0],
    [0,0,0,0,0,0,0,0,1,1,1,1]]

  /** The number of shifts is the number of rows of the matrix. */
  const NumShifts: nat := |ScheduleMatrix|

  const DurationShift: seq<nat> :=
    [7, 9, 9, 9, 11, 11, 12, 12, 12, 8, 8, 9, 11, 11, 11, 4, 7, 10, 10, 4, 9, 4, 7, 8, 4, 7, 4, 4]

  predicate IsShift(s: int) { 1 <= s <= NumShifts }

  predicate IsHour(h: int) { OT <= h < CT }

  /** Whether shift `s` has its employee on the floor at hour `h`
      (false outside the catalogue and outside opening hours). */
  predicate Covers(s: int, h: int)
  {
    IsShift(s) && IsHour(h) && ScheduleMatrix[s - 1][h - OT] == 1
  }

  /** Length of shift `s` in hours (0 outside the catalogue). */
  function Duration(s: int): nat
  {
    if IsShift(s) then DurationShift[s - 1] else 0
  }

  /** First column at or after `from` holding a 1, or NumColumns if none. */
  function FirstOne(row: Row, from: nat): nat
    requires from <= NumColumns
    decreases NumColumns - from
  {
    if from == NumColumns then NumColumns
    else if row[from] == 1 then from
    else FirstOne(row, from + 1)
  }

  /** One past the last column before `upto` holding a 1, or 0 if none. */
  function EndOfOnes(row: Row, upto: nat): nat
    requires upto <= NumColumns
  {
    if upto == 0 then 0
    else if row[upto - 1] == 1 then upto
    else EndOfOnes(row, upto - 1)
  }

  /** Number of 1s in a row: the hours the employee is actually on the floor. */
  function CountOnes(row: seq<Bit>): nat
  {
    if row == [] then 0 else CountOnes(row[..|row| - 1]) + row[|row| - 1]
  }

  lemma {:induction false} FirstOneIsFirst(row: Row, from: nat)
    requires from <= NumColumns
    ensures from <= FirstOne(row, from) <= NumColumns
    ensures FirstOne(row, from) < NumColumns ==> row[FirstOne(row, from)] == 1
    ensures forall c :: from <= c < FirstOne(row, from) ==> row[c] == 0
    decreases NumColumns - from
  {
    if from < NumColumns && row[from] != 1 {
      FirstOneIsFirst(row, from + 1);
    }
  }

  lemma {:induction false} EndOfOnesIsLast(row: Row, upto: nat)
    requires upto <= NumColumns
    ensures EndOfOnes(row, upto) <= upto
    ensures 0 < EndOfOnes(row, upto) ==> row[EndOfOnes(row, upto) - 1] == 1
    ensures forall c :: EndOfOnes(row, upto) <= c < upto ==> row[c] == 0
  {
    if upto > 0 && row[upto - 1] != 1 {
      EndOfOnesIsLast(row, upto - 1);
    }
  }

  /** A row whose 1s all lie in the columns lo .. hi - 1 has at most
      hi - lo of them. */
  lemma {:induction false} OnesWithinSpan(row: seq<Bit>, lo: int, hi: int)
    requires lo <= hi
    requires forall c :: 0 <= c < |row| && row[c] == 1 ==> lo <= c < hi
    ensures CountOnes(row) <= hi - lo
  {
    if row != [] {
      var n := |row|;
      var prefix := row[..n - 1];
      if row[n - 1] == 1 {
        OnesWithinSpan(prefix, lo, n - 1);
      } else {
        OnesWithinSpan(prefix, lo, hi);
      }
    }
  }

  /** The hour at which shift `s` starts: its first covered column. */
  function StartHour(s: int): int
    requires IsShift(s)
  {
    OT + FirstOne(ScheduleMatrix[s - 1], 0)
  }

  /** The duration listed for shift `s` is positive and equals the distance
      from its first covered column to one past its last covered column. */
  predicate RowSpanMatches(s: int)
    requires IsShift(s)
  {
    0 < Duration(s)
    && Duration(s) == EndOfOnes(ScheduleMatrix[s - 1], NumColumns) - FirstOne(ScheduleMatrix[s - 1], 0)
  }

  /** RowSpanMatches for shifts 1 to 4, by evaluating their rows. */
  lemma SpansMatch1To4()
    ensures forall s :: 1 <= s <= 4 ==> RowSpanMatches(s)
  {
  }

  /** RowSpanMatches for shifts 5 to 8, by evaluating their rows. */
  lemma SpansMatch5To8()
    ensures forall s :: 5 <= s <= 8 ==> RowSpanMatches(s)
  {
  }

  /** RowSpanMatches for shifts 9 to 12, by evaluating their rows. */
  lemma SpansMatch9To12()
    ensures forall s :: 9 <= s <= 12 ==> RowSpanMatches(s)
  {
  }

  /** RowSpanMatches for shifts 13 to 16, by evaluating their rows. */
  lemma SpansMatch13To16()
    ensures forall s :: 13 <= s <= 16 ==> RowSpanMatches(s)
  {
  }

  /** RowSpanMatches for shifts 17 to 20, by evaluating their rows. */
  lemma SpansMatch17To20()
    ensures forall s :: 17 <= s <= 20 ==> RowSpanMatches(s)
  {
  }

  /** RowSpanMatches for shifts 21 to 24, by evaluating their rows. */
  lemma SpansMatch21To24()
    ensures forall s :: 21 <= s <= 24 ==> RowSpanMatches(s)
  {
  }

  /** RowSpanMatches for shifts 25 to 28, by evaluating their rows. */
  lemma SpansMatch25To28()
    ensures forall s :: 25 <= s <= 28 ==> RowSpanMatches(s)
  {
  }

  /** Every shift's listed duration is the span from its start hour to its
      last covered hour, inclusive: both ends are covered and no hour outside
      the span is. So a duration counts the breaks inside a shift. */
  lemma DurationIsSpan(s: int)
    requires IsShift(s)
    ensures Covers(s, StartHour(s))
    ensures Covers(s, StartHour(s) + Duration(s) - 1)
    ensures forall h :: Covers(s, h) ==> StartHour(s) <= h < StartHour(s) + Duration(s)
    ensures 1 <= Duration(s) <= NumColumns
  {
    var row := ScheduleMatrix[s - 1];
    FirstOneIsFirst(row, 0);
    EndOfOnesIsLast(row, NumColumns);
    SpansMatch1To4();
    SpansMatch5To8();
    SpansMatch9To12();
    SpansMatch13To16();
    SpansMatch17To20();
    SpansMatch21To24();
    SpansMatch25To28();
    assert RowSpanMatches(s);
  }

  /** A shift's duration is at least the number of hours it covers. */
  lemma CoveredHoursWithinDuration(s: int)
    requires IsShift(s)
    ensures CountOnes(ScheduleMatrix[s - 1]) <= Duration(s)
  {
    var row := ScheduleMatrix[s - 1];
    DurationIsSpan(s);
    var lo := StartHour(s) - OT;
    forall c | 0 <= c < |row| && row[c] == 1 ensures lo <= c < lo + Duration(s) {
      assert Covers(s, OT + c);
    }
    OnesWithinSpan(row, lo, lo + Duration(s));
  }

  /** The shifts covering hour `h`, in increasing order, from shift `s` on. */
  function CoveringShiftsFrom(h: int, s: int): (r: seq<int>)
    requires IsHour(h) && 1 <= s <= NumShifts + 1
    ensures forall x :: x in r <==> s <= x <= NumShifts && Covers(x, h)
    ensures forall i :: 0 <= i < |r| ==> s <= r[i]
    ensures forall i, j :: 0 <= i < j < |r| ==> r[i] < r[j]
    decreases NumShifts + 1 - s
  {
    if s == NumShifts + 1 then []
    else if Covers(s, h) then [s] + CoveringShiftsFrom(h, s + 1)
    else CoveringShiftsFrom(h, s + 1)
  }

  /** The identifiers of the shifts whose pattern covers hour `h`. */
  function CoveringShifts(h: int): (r: seq<int>)
    requires IsHour(h)
    ensures forall x :: x in r <==> Covers(x, h)
    ensures forall i, j :: 0 <= i < j < |r| ==> r[i] < r[j]
  {
    CoveringShiftsFrom(h, 1)
  }
}
