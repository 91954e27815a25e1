/** `analyzeOdometer`: checks on driver-reported readings, vehicle by vehicle. This file holds the
    records, the order inside a vehicle's group, and what the two passes over a group compute. */
module Odometer {
  import opened Prelude
  import opened Text
  import opened ExactDecimals
  import Sorting

  /** An identifier, by its place in the collation order of identifiers. */
  type Id = int

  /** A reading as reported; `None` is null. */
  type Reading = Option<Number>

  /** A record with its timestamps already parsed: `None` where `instant` gives null. */
  datatype Record = Record(id: Id, vehicleId: Id, startedAt: Option<int>, endedAt: Option<int>,
                           startKm: Reading, endKm: Reading)

  datatype Options = Options(maxTripKm: Option<Number>, maxGapKm: Option<Number>, sequenceComplete: bool)

  datatype Code =
    | NegativeDistance
    | SuspiciousDistance
    | OdometerGap
    | SuspiciousGap
    | IncompleteReading
    | AmbiguousSequence
    | IncompleteSequence

  datatype Reason = EndBeforeStart | TiedStart | Overlap | AmbiguousNeighbor

  datatype Context =
    | ReadingContext(startKm: Reading, endKm: Reading)
    | DistanceContext(startKm: Reading, endKm: Reading, distance: Text)
    | TripContext(distance: Text, threshold: Number)
    | SequenceContext(unknownTimestamps: bool, sequenceComplete: bool)
    | AmbiguousContext(reason: Reason)
    | GapContext(previousEndKm: Reading, startKm: Reading, gapKm: Text)
    | LargeGapContext(previousEndKm: Reading, startKm: Reading, gapKm: Text, threshold: Number)

  /** An issue; its stable key is the vehicle, the record and the code. */
  datatype Issue = Issue(vehicleId: Id, recordId: Id, code: Code, previous: Option<Id>, verified: bool,
                         context: Context)

  /** `reading`: a finite number that is not negative. */
  predicate IsReading(r: Reading) {
    r.Some? && r.value.Finite? && Coefficient(r.value.numeral) >= 0
  }

  // ----- one record on its own -----

  function Report(r: Record, code: Code, verified: bool, context: Context, previous: Option<Id>): Issue {
    Issue(r.vehicleId, r.id, code, previous, verified, context)
  }

  function RecordDistance(r: Record): Exact
    requires IsReading(r.startKm) && IsReading(r.endKm)
  {
    Subtract(Decimal(r.endKm.value.numeral), Decimal(r.startKm.value.numeral))
  }

  predicate OverThreshold(value: Exact, limit: Option<Number>) {
    limit.Some? && limit.value.Finite? && Exceeds(value, limit.value.numeral)
  }

  /** The issues the first loop raises for a record. */
  function IntrinsicIssues(r: Record, options: Options): seq<Issue> {
    if !IsReading(r.startKm) || !IsReading(r.endKm) then
      [Report(r, IncompleteReading, false, ReadingContext(r.startKm, r.endKm), None)]
    else
      var distance := RecordDistance(r);
      var text := DecimalText(distance);
      (if distance.units < 0
       then [Report(r, NegativeDistance, true, DistanceContext(r.startKm, r.endKm, text), None)] else []) +
      (if OverThreshold(distance, options.maxTripKm)
       then [Report(r, SuspiciousDistance, true, TripContext(text, options.maxTripKm.value), None)] else [])
  }

  /** The checks the first loop marks as evaluated for a record. */
  function IntrinsicCodes(r: Record, options: Options): set<Code> {
    {IncompleteReading} +
    (if IsReading(r.startKm) && IsReading(r.endKm)
     then {NegativeDistance} + (if options.maxTripKm.Some? then {SuspiciousDistance} else {})
     else {})
  }

  // ----- the order inside a group -----

  /** Unknown starts last, then by start, then by identifier. */
  predicate Before(a: Record, b: Record) {
    match (a.startedAt, b.startedAt)
    case (Some(s), Some(t)) => s < t || (s == t && a.id < b.id)
    case (Some(_), None) => true
    case (None, Some(_)) => false
    case (None, None) => a.id < b.id
  }

  predicate DistinctIds(records: seq<Record>) {
    forall i, j | 0 <= i < j < |records| :: records[i].id != records[j].id
  }

  lemma BeforeIsStrict()
    ensures Sorting.StrictOrder(Before)
  {
  }

  lemma DistinctIsComparable(records: seq<Record>)
    requires DistinctIds(records)
    ensures Sorting.Comparable(records, Before)
  {
  }

  // ----- the interval sweep -----

  /** The sweep's state: the records marked ambiguous, and the interval held, which has the latest end. */
  datatype Sweep = Sweep(ambiguous: set<Id>, held: Option<Record>)

  predicate Inverted(r: Record) {
    r.startedAt.Some? && r.endedAt.Some? && r.endedAt.value < r.startedAt.value
  }

  /** The held interval reaches past the candidate's start, or starts with it. */
  predicate Meets(held: Record, candidate: Record) {
    candidate.startedAt.Some? &&
    ((held.endedAt.Some? && held.endedAt.value > candidate.startedAt.value) ||
     held.startedAt == candidate.startedAt)
  }

  /** An end at least as late as the held one replaces it. */
  predicate Replaces(held: Option<Record>, candidate: Record) {
    candidate.endedAt.Some? &&
    (held.None? || held.value.endedAt.None? || candidate.endedAt.value >= held.value.endedAt.value)
  }

  function SweepOne(state: Sweep, candidate: Record): Sweep {
    Sweep(state.ambiguous
          + (if Inverted(candidate) then {candidate.id} else {})
          + (if state.held.Some? && Meets(state.held.value, candidate)
             then {candidate.id, state.held.value.id} else {}),
          if Replaces(state.held, candidate) then Some(candidate) else state.held)
  }

  /** The sweep over the first `n` records of a group. */
  function SweepTo(group: seq<Record>, n: nat): Sweep
    requires n <= |group|
  {
    if n == 0 then Sweep({}, None) else SweepOne(SweepTo(group, n - 1), group[n - 1])
  }

  function Ambiguous(group: seq<Record>): set<Id> {
    SweepTo(group, |group|).ambiguous
  }

  // ----- the continuity pass -----

  /** Among the first `n` records, the first of those with the latest end. */
  function Latest(group: seq<Record>, n: nat): (r: Option<Record>)
    requires n <= |group|
    ensures r.Some? ==> r.value.endedAt.Some?
  {
    if n == 0 then None
    else
      var before := Latest(group, n - 1);
      var record := group[n - 1];
      if record.endedAt.Some? && (before.None? || record.endedAt.value > before.value.endedAt.value)
      then Some(record) else before
  }

  predicate HasUnknownTime(group: seq<Record>) {
    exists i | 0 <= i < |group| :: group[i].startedAt.None? || group[i].endedAt.None?
  }

  predicate Overlapping(group: seq<Record>, i: nat)
    requires i < |group|
  {
    group[i].startedAt.Some? && Latest(group, i).Some? &&
    Latest(group, i).value.endedAt.value > group[i].startedAt.value
  }

  predicate Tied(group: seq<Record>, i: nat)
    requires i < |group|
  {
    i > 0 && group[i].startedAt.Some? && group[i - 1].startedAt == group[i].startedAt
  }

  /** The record is not compared with its predecessor. */
  predicate IsAmbiguous(group: seq<Record>, i: nat)
    requires i < |group|
  {
    Inverted(group[i]) || Overlapping(group, i) || Tied(group, i) || group[i].id in Ambiguous(group) ||
    (i > 0 && group[i - 1].id in Ambiguous(group))
  }

  predicate IsIncomplete(group: seq<Record>, i: nat, options: Options)
    requires i < |group|
  {
    group[i].startedAt.None? || group[i].endedAt.None? || HasUnknownTime(group) || !options.sequenceComplete
  }

  predicate IsCompared(group: seq<Record>, i: nat, options: Options)
    requires i < |group|
  {
    !IsAmbiguous(group, i) && !IsIncomplete(group, i, options) && i > 0 &&
    IsReading(group[i - 1].endKm) && IsReading(group[i].startKm) && !Inverted(group[i - 1])
  }

  function GapBefore(group: seq<Record>, i: nat): Exact
    requires 0 < i < |group| && IsReading(group[i - 1].endKm) && IsReading(group[i].startKm)
  {
    Subtract(Decimal(group[i].startKm.value.numeral), Decimal(group[i - 1].endKm.value.numeral))
  }

  function Magnitude(e: Exact): Exact {
    Exact(if e.units < 0 then -e.units else e.units, e.scale)
  }

  function PreviousId(group: seq<Record>, i: nat): Option<Id>
    requires i < |group|
  {
    if i > 0 then Some(group[i - 1].id) else None
  }

  function AmbiguousReason(group: seq<Record>, i: nat): Reason
    requires i < |group|
  {
    if Inverted(group[i]) then EndBeforeStart
    else if Tied(group, i) then TiedStart
    else if Overlapping(group, i) then Overlap
    else AmbiguousNeighbor
  }

  function IncompleteIssues(group: seq<Record>, i: nat, options: Options): seq<Issue>
    requires i < |group|
  {
    if IsIncomplete(group, i, options)
    then [Report(group[i], IncompleteSequence, false,
                 SequenceContext(HasUnknownTime(group), options.sequenceComplete), PreviousId(group, i))]
    else []
  }

  function AmbiguousIssues(group: seq<Record>, i: nat): seq<Issue>
    requires i < |group|
  {
    if IsAmbiguous(group, i)
    then [Report(group[i], AmbiguousSequence, false, AmbiguousContext(AmbiguousReason(group, i)),
                 if Latest(group, i).Some? then Some(Latest(group, i).value.id) else PreviousId(group, i))]
    else []
  }

  function GapIssues(group: seq<Record>, i: nat, options: Options): seq<Issue>
    requires i < |group|
  {
    if !IsCompared(group, i, options) then []
    else
      var r, p := group[i], group[i - 1];
      var gap := GapBefore(group, i);
      var text := DecimalText(gap);
      (if gap.units != 0
       then [Report(r, OdometerGap, true, GapContext(p.endKm, r.startKm, text), Some(p.id))] else []) +
      (if OverThreshold(Magnitude(gap), options.maxGapKm)
       then [Report(r, SuspiciousGap, true, LargeGapContext(p.endKm, r.startKm, text, options.maxGapKm.value),
                    Some(p.id))] else [])
  }

  /** The issues the continuity pass raises at place `i` of a group. */
  function SequenceIssues(group: seq<Record>, i: nat, options: Options): seq<Issue>
    requires i < |group|
  {
    IncompleteIssues(group, i, options) + AmbiguousIssues(group, i) + GapIssues(group, i, options)
  }

  /** The checks the continuity pass marks as evaluated at place `i`. */
  function SequenceCodes(group: seq<Record>, i: nat, options: Options): set<Code>
    requires i < |group|
  {
    (if !IsAmbiguous(group, i) && !IsIncomplete(group, i, options)
     then {AmbiguousSequence, IncompleteSequence} else {}) +
    (if IsCompared(group, i, options)
     then {OdometerGap, AmbiguousSequence, IncompleteSequence} +
          (if options.maxGapKm.Some? then {SuspiciousGap} else {})
     else {})
  }
}
