/** The scenario approximation of the hourly requirement: from the simulated
    customer counts of a cell, the number of staff needed is the ceiling of
    the largest count divided by 10 (one staff member serves ten customers
    an hour). The simulation itself is an input here: each cell's draws are
    given as a sequence of non-negative counts. */
module DemandEstimator {
  import opened ShiftCatalog
  import opened StaffingModel

  datatype Option<T> = None | Some(value: T)

  /** Customers one staff member serves in an hour. */
  const CustomersPerStaff: nat := 10

  /** The largest of a non-empty sequence of counts. */
  function MaxSample(samples: seq<nat>): (m: nat)
    requires |samples| > 0
    ensures m in samples
    ensures forall i :: 0 <= i < |samples| ==> samples[i] <= m
  {
    if |samples| == 1 then samples[0]
    else
      var rest := MaxSample(samples[1..]);
      if samples[0] >= rest then samples[0] else rest
  }

  /** ceil(a / b) on naturals. */
  function CeilDiv(a: nat, b: nat): (q: nat)
    requires b > 0
    ensures a <= b * q
    ensures q == 0 || b * (q - 1) < a
  {
    (a + b - 1) / b
  }

  /** ceil(max(samples) / 10); there is no maximum of no samples. */
  function ScenarioRequirement(samples: seq<nat>): (r: Option<nat>)
    ensures r.None? <==> |samples| == 0
  {
    if |samples| == 0 then None
    else Some(CeilDiv(MaxSample(samples), CustomersPerStaff))
  }

  /** q staff serve every simulated count of the cell. */
  predicate Serves(samples: seq<nat>, q: nat)
  {
    forall i :: 0 <= i < |samples| ==> samples[i] <= CustomersPerStaff * q
  }

  /** The requirement is the least head count that serves every simulated
      count of the cell. */
  lemma ScenarioRequirementIsLeastCover(samples: seq<nat>)
    requires |samples| > 0
    ensures ScenarioRequirement(samples).Some?
    ensures var r := ScenarioRequirement(samples).value;
      && (forall i :: 0 <= i < |samples| ==> samples[i] <= CustomersPerStaff * r)
      && (forall q: nat :: q < r ==> exists i :: 0 <= i < |samples| && CustomersPerStaff * q < samples[i])
  {
    var m := MaxSample(samples);
    var r := ScenarioRequirement(samples).value;
    forall q: nat | q < r ensures exists i :: 0 <= i < |samples| && CustomersPerStaff * q < samples[i] {
      var i :| 0 <= i < |samples| && samples[i] == m;
      assert CustomersPerStaff * q <= CustomersPerStaff * (r - 1);
    }
  }

  /** The requirement table of the scenario approach: every cell's
      requirement from that cell's draws. Every cell has draws. */
  function ScenarioTable(draws: map<Cell, seq<nat>>): (t: Requirement)
    requires forall c :: c in draws ==> |draws[c]| > 0
    ensures forall c :: c in t <==> c in draws
  {
    map c | c in draws :: CeilDiv(MaxSample(draws[c]), CustomersPerStaff)
  }

  /** Each entry of the table is the least head count serving its cell's
      draws, and draws for the whole week give a requirement for the whole
      week. */
  lemma ScenarioTableMeaning(draws: map<Cell, seq<nat>>)
    requires forall c :: c in draws ==> |draws[c]| > 0
    ensures forall c :: c in draws ==> Serves(draws[c], ScenarioTable(draws)[c])
    ensures forall c, q: nat :: c in draws && q < ScenarioTable(draws)[c] ==> !Serves(draws[c], q)
    ensures (forall d, h :: 1 <= d <= NumDays && OT <= h < CT ==> (d, h) in draws) ==> CoversWeek(ScenarioTable(draws))
  {
    var t := ScenarioTable(draws);
    forall c | c in draws
      ensures Serves(draws[c], t[c])
      ensures forall q: nat :: q < t[c] ==> !Serves(draws[c], q)
    {
      ScenarioRequirementIsLeastCover(draws[c]);
    }
  }
}
