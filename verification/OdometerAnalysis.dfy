/** The whole analysis: records grouped by vehicle, the loops that compute it, and what it promises
    about the issues and checks it returns. */
module OdometerAnalysis {
  import opened Prelude
  import opened ExactDecimals
  import opened Odometer
  import Sorting

  datatype Analysis = Analysis(issues: seq<Issue>, checks: map<Id, set<Code>>, evaluated: seq<Id>)

  datatype Outcome = Failed | Analyzed(analysis: Analysis)

  // ----- what the result is -----

  predicate ValidLimit(limit: Option<Number>) {
    limit.Some? ==> limit.value.Finite? && Coefficient(limit.value.numeral) >= 0
  }

  predicate ValidLimits(options: Options) {
    ValidLimit(options.maxTripKm) && ValidLimit(options.maxGapKm)
  }

  /** The records of one vehicle, in input order. */
  function OfVehicle(records: seq<Record>, vehicle: Id): (r: seq<Record>)
    ensures forall x :: x in r <==> x in records && x.vehicleId == vehicle
    ensures DistinctIds(records) ==> DistinctIds(r)
  {
    if records == [] then []
    else
      var last := |records| - 1;
      var front := OfVehicle(records[..last], vehicle);
      if records[last].vehicleId == vehicle then front + [records[last]] else front
  }

  /** A vehicle's group once sorted. */
  function Group(records: seq<Record>, vehicle: Id): seq<Record> {
    Sorting.Sort(OfVehicle(records, vehicle), Before)
  }

  /** Vehicles in order of first appearance, the order in which the groups are visited. */
  function Vehicles(records: seq<Record>): (vs: seq<Id>)
    ensures forall v :: v in vs <==> exists r :: r in records && r.vehicleId == v
    ensures forall i, j | 0 <= i < j < |vs| :: vs[i] != vs[j]
  {
    if records == [] then []
    else
      var last := |records| - 1;
      var front := Vehicles(records[..last]);
      var v := records[last].vehicleId;
      assert records == records[..last] + [records[last]];
      if v in front then front else front + [v]
  }

  /** The first loop's issues for the first `n` records. */
  function FirstIssues(records: seq<Record>, n: nat, options: Options): seq<Issue>
    requires n <= |records|
  {
    if n == 0 then [] else FirstIssues(records, n - 1, options) + IntrinsicIssues(records[n - 1], options)
  }

  /** The continuity pass's issues for the first `n` records of a group. */
  function PassIssues(group: seq<Record>, n: nat, options: Options): seq<Issue>
    requires n <= |group|
  {
    if n == 0 then [] else PassIssues(group, n - 1, options) + SequenceIssues(group, n - 1, options)
  }

  /** The continuity pass's issues for the first `n` groups. */
  function GroupIssues(records: seq<Record>, vehicles: seq<Id>, n: nat, options: Options): seq<Issue>
    requires n <= |vehicles|
  {
    if n == 0 then []
    else
      var group := Group(records, vehicles[n - 1]);
      GroupIssues(records, vehicles, n - 1, options) + PassIssues(group, |group|, options)
  }

  function IdsOf(records: seq<Record>): seq<Id> {
    seq(|records|, i requires 0 <= i < |records| => records[i].id)
  }

  /** The place of a record in a sequence that holds it. */
  function PlaceOf(group: seq<Record>, r: Record): (i: nat)
    requires r in group
    ensures i < |group| && group[i] == r
  {
    if group[0] == r then 0 else 1 + PlaceOf(group[1..], r)
  }

  lemma GroupMembers(records: seq<Record>, vehicle: Id)
    ensures forall x :: x in Group(records, vehicle) <==> x in records && x.vehicleId == vehicle
  {
    var s := OfVehicle(records, vehicle);
    forall x ensures x in Group(records, vehicle) <==> x in s {
      assert x in multiset(Group(records, vehicle)) <==> x in multiset(s);
    }
  }

  lemma GroupIsSorted(records: seq<Record>, vehicle: Id)
    requires DistinctIds(records)
    ensures Sorting.Sorted(Group(records, vehicle), Before) && DistinctIds(Group(records, vehicle))
  {
    var s := OfVehicle(records, vehicle);
    BeforeIsStrict();
    DistinctIsComparable(s);
    Sorting.SortSorts(s, Before);
    SortedHasDistinctIds(s);
  }

  /** Sorting keeps identifiers distinct. */
  lemma {:induction false} SortedHasDistinctIds(s: seq<Record>)
    requires DistinctIds(s)
    ensures DistinctIds(Sorting.Sort(s, Before))
  {
    var g := Sorting.Sort(s, Before);
    forall i, j | 0 <= i < j < |g| ensures g[i].id != g[j].id {
      if g[i].id == g[j].id {
        var a := Sorting.SortedFrom(s, Before, i);
        var b := Sorting.SortedFrom(s, Before, j);
        assert a == b && g[i] == g[j];
        TwiceInMultiset(g, i, j);
        OnceInMultiset(s, a);
      }
    }
  }

  lemma TwiceInMultiset(s: seq<Record>, i: nat, j: nat)
    requires i < j < |s| && s[i] == s[j]
    ensures multiset(s)[s[i]] >= 2
  {
    assert s == s[..i] + [s[i]] + s[i + 1..j] + [s[j]] + s[j + 1..];
  }

  lemma OnceInMultiset(s: seq<Record>, a: nat)
    requires DistinctIds(s) && a < |s|
    ensures multiset(s)[s[a]] == 1
  {
    assert s == s[..a] + [s[a]] + s[a + 1..];
    assert s[a] !in s[..a] && s[a] !in s[a + 1..];
  }

  /** The checks that count as evaluated for one record of the input. */
  function ChecksOf(records: seq<Record>, r: Record, options: Options): set<Code>
    requires r in records
  {
    GroupMembers(records, r.vehicleId);
    var group := Group(records, r.vehicleId);
    IntrinsicCodes(r, options) + SequenceCodes(group, PlaceOf(group, r), options)
  }

  /** The records, in input order, whose gap check was evaluated. */
  function Evaluated(records: seq<Record>, n: nat, options: Options): seq<Id>
    requires n <= |records|
  {
    if n == 0 then []
    else
      var r := records[n - 1];
      Evaluated(records, n - 1, options) + if OdometerGap in ChecksOf(records, r, options) then [r.id] else []
  }

  /** The checks map has the input's identifiers, each with the checks of its record. */
  ghost predicate AreChecks(records: seq<Record>, options: Options, checks: map<Id, set<Code>>) {
    && (forall i | 0 <= i < |records| ::
          records[i].id in checks && checks[records[i].id] == ChecksOf(records, records[i], options))
    && (forall id | id in checks :: id in IdsOf(records))
  }

  function Issues(records: seq<Record>, options: Options): seq<Issue> {
    FirstIssues(records, |records|, options) + GroupIssues(records, Vehicles(records), |Vehicles(records)|, options)
  }

  /** Everything the analysis returns; it fails on a bad threshold or a repeated identifier. */
  ghost predicate IsAnalysis(records: seq<Record>, options: Options, outcome: Outcome) {
    match outcome
    case Failed => !ValidLimits(options) || !DistinctIds(records)
    case Analyzed(a) =>
      && ValidLimits(options) && DistinctIds(records)
      && a.issues == Issues(records, options)
      && AreChecks(records, options, a.checks)
      && a.evaluated == Evaluated(records, |records|, options)
  }

  // ----- the loops -----

  method SweepGroup(group: seq<Record>) returns (ambiguous: set<Id>)
    ensures ambiguous == Ambiguous(group)
  {
    ambiguous := {};
    var intervalEnd: Option<int> := None;
    var intervalRecord: Option<Record> := None;
    for n := 0 to |group|
      invariant SweepTo(group, n) == Sweep(ambiguous, intervalRecord)
      invariant intervalEnd == if intervalRecord.Some? then intervalRecord.value.endedAt else None
      invariant intervalRecord.Some? ==> intervalEnd.Some?
    {
      var candidate := group[n];
      var start, end := candidate.startedAt, candidate.endedAt;
      if start.Some? && end.Some? && end.value < start.value {
        ambiguous := ambiguous + {candidate.id};
      }
      if start.Some? && intervalRecord.Some? &&
         (intervalEnd.value > start.value || intervalRecord.value.startedAt == start) {
        ambiguous := ambiguous + {candidate.id} + {intervalRecord.value.id};
      }
      if end.Some? && (intervalEnd.None? || end.value >= intervalEnd.value) {
        intervalEnd := end;
        intervalRecord := Some(candidate);
      }
    }
  }

  /** One record of the continuity pass: the issues it raises and the checks it marks. */
  method CheckRecord(group: seq<Record>, index: nat, ambiguous: set<Id>, latest: Option<Record>, options: Options)
    returns (issues: seq<Issue>, codes: set<Code>)
    requires index < |group| && ambiguous == Ambiguous(group) && latest == Latest(group, index)
    ensures issues == SequenceIssues(group, index, options)
    ensures codes == SequenceCodes(group, index, options)
  {
    hide Ambiguous, Latest, DecimalText, Decimal, Subtract, Exceeds, Coefficient;
    issues, codes := [], {};
    var record := group[index];
    var previous := PreviousId(group, index);
    var hasUnknownTime := HasUnknownTime(group);
    var start, end := record.startedAt, record.endedAt;
    var invalidRange := start.Some? && end.Some? && end.value < start.value;
    var overlapping := start.Some? && latest.Some? && latest.value.endedAt.value > start.value;
    var tied := index > 0 && start.Some? && group[index - 1].startedAt == start;
    if start.None? || end.None? || hasUnknownTime || !options.sequenceComplete {
      issues := [Report(record, IncompleteSequence, false,
                        SequenceContext(hasUnknownTime, options.sequenceComplete), previous)];
    }
    if invalidRange || overlapping || tied || record.id in ambiguous ||
       (index > 0 && group[index - 1].id in ambiguous) {
      var reason := if invalidRange then EndBeforeStart else if tied then TiedStart
                    else if overlapping then Overlap else AmbiguousNeighbor;
      issues := issues + [Report(record, AmbiguousSequence, false, AmbiguousContext(reason),
                                 if latest.Some? then Some(latest.value.id) else previous)];
    } else if start.Some? && end.Some? && !hasUnknownTime && options.sequenceComplete {
      codes := {AmbiguousSequence, IncompleteSequence};
      if index > 0 && IsReading(group[index - 1].endKm) && IsReading(record.startKm) {
        var before := group[index - 1];
        if before.startedAt.Some? && before.endedAt.Some? && before.endedAt.value >= before.startedAt.value {
          codes := codes + {OdometerGap} + if options.maxGapKm.Some? then {SuspiciousGap} else {};
          var gap := Subtract(Decimal(record.startKm.value.numeral), Decimal(before.endKm.value.numeral));
          var text := DecimalText(gap);
          if gap.units != 0 {
            issues := issues + [Report(record, OdometerGap, true,
                                       GapContext(before.endKm, record.startKm, text), Some(before.id))];
          }
          if OverThreshold(Magnitude(gap), options.maxGapKm) {
            issues := issues + [Report(record, SuspiciousGap, true,
                                       LargeGapContext(before.endKm, record.startKm, text, options.maxGapKm.value),
                                       Some(before.id))];
          }
        }
      }
    }
  }

  /** After `n` records of the pass: those have their sequence checks added, nothing else changed. */
  ghost predicate PassChecks(group: seq<Record>, n: nat, options: Options,
                             before: map<Id, set<Code>>, after: map<Id, set<Code>>)
    requires n <= |group|
  {
    && after.Keys == before.Keys
    && (forall i | 0 <= i < |group| :: group[i].id in before)
    && (forall i | 0 <= i < n :: after[group[i].id] == before[group[i].id] + SequenceCodes(group, i, options))
    && (forall i | n <= i < |group| :: after[group[i].id] == before[group[i].id])
    && (forall id | id in before && id !in IdsOf(group) :: after[id] == before[id])
  }

  lemma PassChecksStep(group: seq<Record>, n: nat, options: Options,
                       before: map<Id, set<Code>>, after: map<Id, set<Code>>)
    requires n < |group| && DistinctIds(group) && PassChecks(group, n, options, before, after)
    ensures var id := group[n].id;
            PassChecks(group, n + 1, options, before, after[id := after[id] + SequenceCodes(group, n, options)])
  {
    hide SequenceCodes;
    assert IdsOf(group)[n] == group[n].id;
  }

  lemma PassIssuesStep(issues: seq<Issue>, group: seq<Record>, n: nat, options: Options)
    requires n < |group|
    ensures issues + PassIssues(group, n + 1, options) ==
            issues + PassIssues(group, n, options) + SequenceIssues(group, n, options)
  {
    hide SequenceIssues;
  }

  method ContinuityPass(group: seq<Record>, ambiguous: set<Id>, options: Options,
                        issues: seq<Issue>, checks: map<Id, set<Code>>)
    returns (issues': seq<Issue>, checks': map<Id, set<Code>>)
    requires DistinctIds(group) && ambiguous == Ambiguous(group)
    requires forall i | 0 <= i < |group| :: group[i].id in checks
    ensures issues' == issues + PassIssues(group, |group|, options)
    ensures PassChecks(group, |group|, options, checks, checks')
  {
    hide SequenceIssues, SequenceCodes, Ambiguous, DistinctIds;
    issues', checks' := issues, checks;
    var latestRecord: Option<Record> := None;
    for index := 0 to |group|
      invariant issues' == issues + PassIssues(group, index, options)
      invariant latestRecord == Latest(group, index)
      invariant PassChecks(group, index, options, checks, checks')
    {
      hide PassIssues;
      var record := group[index];
      var raised, codes := CheckRecord(group, index, ambiguous, latestRecord, options);
      PassIssuesStep(issues, group, index, options);
      PassChecksStep(group, index, options, checks, checks');
      issues' := issues' + raised;
      checks' := checks'[record.id := checks'[record.id] + codes];
      if record.endedAt.Some? && (latestRecord.None? || record.endedAt.value > latestRecord.value.endedAt.value) {
        latestRecord := Some(record);
      }
    }
  }

  // ----- the whole analysis -----

  /** After the first loop over `n` records. */
  ghost predicate FirstChecks(records: seq<Record>, n: nat, options: Options, checks: map<Id, set<Code>>)
    requires n <= |records|
  {
    && (forall i | 0 <= i < n :: records[i].id in checks && checks[records[i].id] == IntrinsicCodes(records[i], options))
    && (forall id | id in checks :: exists i | 0 <= i < n :: records[i].id == id)
  }

  lemma FirstChecksStep(records: seq<Record>, n: nat, options: Options, checks: map<Id, set<Code>>)
    requires n < |records| && FirstChecks(records, n, options, checks) && records[n].id !in checks
    ensures FirstChecks(records, n + 1, options, checks[records[n].id := IntrinsicCodes(records[n], options)])
  {
    hide IntrinsicCodes;
  }

  /** The groups collected from the first `n` records, in order of first appearance. */
  ghost predicate FirstGroups(records: seq<Record>, n: nat, order: seq<Id>, groups: map<Id, seq<Record>>)
    requires n <= |records|
  {
    && order == Vehicles(records[..n])
    && (forall v :: v in groups <==> v in order)
    && (forall v | v in groups :: groups[v] == OfVehicle(records[..n], v))
  }

  lemma FirstGroupsStep(records: seq<Record>, n: nat, order: seq<Id>, groups: map<Id, seq<Record>>)
    requires n < |records| && FirstGroups(records, n, order, groups)
    ensures var r := records[n];
            var group := if r.vehicleId in groups then groups[r.vehicleId] else [];
            FirstGroups(records, n + 1, if r.vehicleId in groups then order else order + [r.vehicleId],
                        groups[r.vehicleId := group + [r]])
  {
    hide Vehicles, OfVehicle;
    var r := records[n];
    NoVehicle(records[..n], r.vehicleId);
    VehiclesStep(records, n);
    forall v ensures OfVehicle(records[..n + 1], v) ==
                     if v == r.vehicleId then OfVehicle(records[..n], v) + [r] else OfVehicle(records[..n], v)
    {
      OfVehicleStep(records, n, v);
    }
  }

  lemma VehiclesStep(records: seq<Record>, n: nat)
    requires n < |records|
    ensures var front, v := Vehicles(records[..n]), records[n].vehicleId;
            Vehicles(records[..n + 1]) == if v in front then front else front + [v]
  {
    assert records[..n + 1][..n] == records[..n];
  }

  lemma OfVehicleStep(records: seq<Record>, n: nat, vehicle: Id)
    requires n < |records|
    ensures var front := OfVehicle(records[..n], vehicle);
            OfVehicle(records[..n + 1], vehicle) ==
            if records[n].vehicleId == vehicle then front + [records[n]] else front
  {
    assert records[..n + 1][..n] == records[..n];
  }

  lemma {:induction false} NoVehicle(records: seq<Record>, v: Id)
    ensures v !in Vehicles(records) ==> OfVehicle(records, v) == []
  {
    assert OfVehicle(records, v) != [] ==> OfVehicle(records, v)[0] in OfVehicle(records, v);
  }

  /** The first loop on one record. */
  method FirstLook(record: Record, options: Options) returns (issues: seq<Issue>, codes: set<Code>)
    ensures issues == IntrinsicIssues(record, options) && codes == IntrinsicCodes(record, options)
  {
    hide DecimalText, Decimal, Subtract, Exceeds, Coefficient;
    codes := {IncompleteReading};
    if !IsReading(record.startKm) || !IsReading(record.endKm) {
      issues := [Report(record, IncompleteReading, false, ReadingContext(record.startKm, record.endKm), None)];
      return;
    }
    issues := [];
    codes := codes + {NegativeDistance} + if options.maxTripKm.Some? then {SuspiciousDistance} else {};
    var exactDistance := Subtract(Decimal(record.endKm.value.numeral), Decimal(record.startKm.value.numeral));
    var distance := DecimalText(exactDistance);
    if exactDistance.units < 0 {
      issues := [Report(record, NegativeDistance, true, DistanceContext(record.startKm, record.endKm, distance), None)];
    }
    if OverThreshold(exactDistance, options.maxTripKm) {
      issues := issues +
        [Report(record, SuspiciousDistance, true, TripContext(distance, options.maxTripKm.value), None)];
    }
  }

  /** An identifier is already in the map exactly when an earlier record has it. */
  lemma SeenBefore(records: seq<Record>, n: nat, options: Options, checks: map<Id, set<Code>>)
    requires n < |records| && FirstChecks(records, n, options, checks)
    ensures records[n].id in checks <==> exists i | 0 <= i < n :: records[i].id == records[n].id
  {
  }

  lemma DistinctStep(records: seq<Record>, n: nat)
    requires n < |records| && DistinctIds(records[..n])
    ensures DistinctIds(records[..n + 1]) <==> forall i | 0 <= i < n :: records[i].id != records[n].id
  {
    var t := records[..n + 1];
    assert forall i | 0 <= i < n :: t[i] == records[i];
    if forall i | 0 <= i < n :: records[i].id != records[n].id {
      assert forall i | 0 <= i < n :: records[..n][i] == records[i];
    } else {
      var i :| 0 <= i < n && records[i].id == records[n].id;
      assert t[i].id == t[n].id;
    }
  }

  lemma PrefixDistinct(records: seq<Record>, n: nat)
    requires n <= |records| && DistinctIds(records)
    ensures DistinctIds(records[..n])
  {
  }

  /** The loop over the records; `distinct` is false where the source throws. */
  method FirstLoop(records: seq<Record>, options: Options)
    returns (distinct: bool, issues: seq<Issue>, checks: map<Id, set<Code>>, order: seq<Id>, groups: map<Id, seq<Record>>)
    ensures distinct <==> DistinctIds(records)
    ensures distinct ==> issues == FirstIssues(records, |records|, options)
    ensures distinct ==> FirstChecks(records, |records|, options, checks)
    ensures distinct ==> FirstGroups(records, |records|, order, groups)
  {
    hide IntrinsicIssues, IntrinsicCodes, FirstChecks, FirstGroups, DistinctIds;
    issues, checks, order, groups := [], map[], [], map[];
    StartingOut(records, options);
    for i := 0 to |records|
      invariant DistinctIds(records[..i])
      invariant issues == FirstIssues(records, i, options)
      invariant FirstChecks(records, i, options, checks)
      invariant FirstGroups(records, i, order, groups)
    {
      var record := records[i];
      SeenBefore(records, i, options, checks);
      DistinctStep(records, i);
      if record.id in checks {
        if DistinctIds(records) {
          PrefixDistinct(records, i + 1);
        }
        distinct := false;
        return;
      }
      FirstChecksStep(records, i, options, checks);
      FirstGroupsStep(records, i, order, groups);
      var group := if record.vehicleId in groups then groups[record.vehicleId] else [];
      order := if record.vehicleId in groups then order else order + [record.vehicleId];
      groups := groups[record.vehicleId := group + [record]];
      var raised, codes := FirstLook(record, options);
      issues := issues + raised;
      checks := checks[record.id := codes];
    }
    assert records[..|records|] == records;
    distinct := true;
  }

  lemma StartingOut(records: seq<Record>, options: Options)
    ensures FirstChecks(records, 0, options, map[]) && FirstGroups(records, 0, [], map[])
    ensures DistinctIds(records[..0])
  {
    assert records[..0] == [];
  }

  /** The checks after the groups of the first `k` vehicles. */
  ghost predicate LoopChecks(records: seq<Record>, options: Options, order: seq<Id>, k: nat, checks: map<Id, set<Code>>)
    requires k <= |order|
  {
    && (forall i | 0 <= i < |records| ::
          records[i].id in checks &&
          checks[records[i].id] ==
            if records[i].vehicleId in order[..k] then ChecksOf(records, records[i], options)
            else IntrinsicCodes(records[i], options))
    && (forall id | id in checks :: id in IdsOf(records))
  }

  lemma FirstLoopChecks(records: seq<Record>, options: Options, order: seq<Id>, checks: map<Id, set<Code>>)
    requires FirstChecks(records, |records|, options, checks)
    ensures LoopChecks(records, options, order, 0, checks)
  {
    hide ChecksOf, IntrinsicCodes;
    forall id | id in checks ensures id in IdsOf(records) {
      var i :| 0 <= i < |records| && records[i].id == id;
      assert IdsOf(records)[i] == id;
    }
  }

  lemma GroupIdsIn(records: seq<Record>, options: Options, order: seq<Id>, k: nat, checks: map<Id, set<Code>>)
    requires k < |order| && LoopChecks(records, options, order, k, checks)
    ensures var group := Group(records, order[k]);
            forall i | 0 <= i < |group| :: group[i].id in checks
  {
    hide ChecksOf, IntrinsicCodes, OfVehicle, Group;
    var group := Group(records, order[k]);
    forall i | 0 <= i < |group| ensures group[i].id in checks {
      GroupMembers(records, order[k]);
      assert group[i] in records;
    }
  }

  lemma IdsTell(records: seq<Record>, a: Record, b: Record)
    requires DistinctIds(records) && a in records && b in records && a.id == b.id
    ensures a == b
  {
  }

  /** One more group brings the checks of its vehicle's records, and only theirs, up to date. */
  lemma LoopChecksStep(records: seq<Record>, options: Options, order: seq<Id>, k: nat,
                       before: map<Id, set<Code>>, after: map<Id, set<Code>>)
    requires DistinctIds(records) && k < |order| && order[k] !in order[..k]
    requires LoopChecks(records, options, order, k, before)
    requires var group := Group(records, order[k]); PassChecks(group, |group|, options, before, after)
    ensures LoopChecks(records, options, order, k + 1, after)
  {
    hide IntrinsicCodes, SequenceCodes, Group, PlaceOf, DistinctIds;
    var group := Group(records, order[k]);
    GroupMembers(records, order[k]);
    assert order[..k + 1] == order[..k] + [order[k]];
    forall i | 0 <= i < |records|
      ensures records[i].id in after
      ensures after[records[i].id] ==
              if records[i].vehicleId in order[..k + 1] then ChecksOf(records, records[i], options)
              else IntrinsicCodes(records[i], options)
    {
      var r := records[i];
      if r.vehicleId == order[k] {
        var place := PlaceOf(group, r);
      } else {
        NotInGroup(records, order[k], r);
      }
    }
  }

  lemma NotInGroup(records: seq<Record>, vehicle: Id, r: Record)
    requires DistinctIds(records) && r in records && r.vehicleId != vehicle
    ensures r.id !in IdsOf(Group(records, vehicle))
  {
    var group := Group(records, vehicle);
    if r.id in IdsOf(group) {
      var i :| 0 <= i < |group| && IdsOf(group)[i] == r.id;
      GroupMembers(records, vehicle);
      assert group[i] in group;
      IdsTell(records, group[i], r);
    }
  }

  lemma GroupIssuesStep(issues: seq<Issue>, records: seq<Record>, order: seq<Id>, k: nat, options: Options)
    requires k < |order|
    ensures var group := Group(records, order[k]);
            issues + GroupIssues(records, order, k + 1, options) ==
            issues + GroupIssues(records, order, k, options) + PassIssues(group, |group|, options)
  {
    hide Group, PassIssues;
  }

  lemma AllVehicles(records: seq<Record>, options: Options, order: seq<Id>, checks: map<Id, set<Code>>)
    requires order == Vehicles(records) && LoopChecks(records, options, order, |order|, checks)
    ensures AreChecks(records, options, checks)
  {
    hide ChecksOf, IntrinsicCodes, Vehicles;
    assert order[..|order|] == order;
    forall i | 0 <= i < |records| ensures records[i].vehicleId in order {
      assert records[i] in records;
    }
  }

  method CollectEvaluated(records: seq<Record>, options: Options, checks: map<Id, set<Code>>) returns (ids: seq<Id>)
    requires AreChecks(records, options, checks)
    ensures ids == Evaluated(records, |records|, options)
  {
    hide ChecksOf;
    ids := [];
    for i := 0 to |records|
      invariant ids == Evaluated(records, i, options)
    {
      if OdometerGap in checks[records[i].id] {
        ids := ids + [records[i].id];
      }
    }
  }

  lemma VehicleIsNew(records: seq<Record>, k: nat)
    requires k < |Vehicles(records)|
    ensures Vehicles(records)[k] !in Vehicles(records)[..k]
  {
    hide Vehicles;
  }

  /** The loop over the groups. */
  method GroupLoop(records: seq<Record>, options: Options, order: seq<Id>, groups: map<Id, seq<Record>>,
                   issues: seq<Issue>, checks: map<Id, set<Code>>)
    returns (issues': seq<Issue>, checks': map<Id, set<Code>>)
    requires DistinctIds(records) && FirstGroups(records, |records|, order, groups)
    requires FirstChecks(records, |records|, options, checks)
    ensures issues' == issues + GroupIssues(records, Vehicles(records), |Vehicles(records)|, options)
    ensures AreChecks(records, options, checks')
  {
    hide OfVehicle, Vehicles, ChecksOf, IntrinsicCodes, SequenceCodes, Ambiguous, PassIssues, DistinctIds, FirstChecks,
         AreChecks, LoopChecks, PassChecks, Sorting.Sort, Sorting.Sorted;
    issues', checks' := issues, checks;
    assert records[..|records|] == records;
    FirstLoopChecks(records, options, order, checks);
    for k := 0 to |order|
      invariant issues' == issues + GroupIssues(records, order, k, options)
      invariant LoopChecks(records, options, order, k, checks')
    {
      hide GroupIssues;
      var group := Sorting.Sort(groups[order[k]], Before);
      GroupIsSorted(records, order[k]);
      VehicleIsNew(records, k);
      GroupIdsIn(records, options, order, k, checks');
      var ambiguous := SweepGroup(group);
      ghost var before := checks';
      issues', checks' := ContinuityPass(group, ambiguous, options, issues', checks');
      LoopChecksStep(records, options, order, k, before, checks');
      GroupIssuesStep(issues, records, order, k, options);
    }
    AllVehicles(records, options, order, checks');
  }

  method AnalyzeOdometer(records: seq<Record>, options: Options) returns (outcome: Outcome)
    ensures IsAnalysis(records, options, outcome)
  {
    hide ValidLimit, DistinctIds, FirstIssues, GroupIssues, Vehicles, OfVehicle, AreChecks, FirstChecks, Evaluated;
    if !ValidLimit(options.maxTripKm) || !ValidLimit(options.maxGapKm) {
      return Failed;
    }
    var distinct, issues, checks, order, groups := FirstLoop(records, options);
    if !distinct {
      return Failed;
    }
    assert records[..|records|] == records;
    issues, checks := GroupLoop(records, options, order, groups, issues, checks);
    var evaluated := CollectEvaluated(records, options, checks);
    outcome := Analyzed(Analysis(issues, checks, evaluated));
  }
}
