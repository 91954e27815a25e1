/** What the analysis promises about its result: it does not depend on the order of the input, its
    issues are identified by record and code, and only evaluated checks can be resolved. */
module OdometerResults {
  import opened ExactDecimals
  import opened Odometer
  import opened OdometerSweep
  import opened OdometerAnalysis
  import Sorting

  // ----- which issues there are -----

  /** All issues of one record of the input. */
  function RecordIssues(records: seq<Record>, r: Record, options: Options): seq<Issue>
    requires r in records
  {
    GroupMembers(records, r.vehicleId);
    var group := Group(records, r.vehicleId);
    IntrinsicIssues(r, options) + SequenceIssues(group, PlaceOf(group, r), options)
  }

  lemma {:induction false} FirstIssueMembers(records: seq<Record>, n: nat, options: Options, x: Issue)
    requires n <= |records|
    ensures x in FirstIssues(records, n, options) <==>
            exists i | 0 <= i < n :: x in IntrinsicIssues(records[i], options)
  {
    hide IntrinsicIssues;
    if n > 0 {
      FirstIssueMembers(records, n - 1, options, x);
    }
  }

  lemma {:induction false} PassIssueMembers(group: seq<Record>, n: nat, options: Options, x: Issue)
    requires n <= |group|
    ensures x in PassIssues(group, n, options) <==> exists i | 0 <= i < n :: x in SequenceIssues(group, i, options)
  {
    hide SequenceIssues;
    if n > 0 {
      PassIssueMembers(group, n - 1, options, x);
    }
  }

  lemma {:induction false} GroupIssueMembers(records: seq<Record>, vehicles: seq<Id>, n: nat, options: Options, x: Issue)
    requires n <= |vehicles|
    ensures x in GroupIssues(records, vehicles, n, options) <==>
            exists k | 0 <= k < n ::
              var group := Group(records, vehicles[k]); x in PassIssues(group, |group|, options)
  {
    hide Group, PassIssues;
    if n > 0 {
      GroupIssueMembers(records, vehicles, n - 1, options, x);
    }
  }

  lemma PlaceIsUnique(group: seq<Record>, i: nat)
    requires DistinctIds(group) && i < |group|
    ensures PlaceOf(group, group[i]) == i
  {
  }

  /** An issue is in the result exactly when it is an issue of one of the records. */
  lemma IssueMembers(records: seq<Record>, options: Options, x: Issue)
    requires DistinctIds(records)
    ensures x in Issues(records, options) <==>
            exists i | 0 <= i < |records| :: x in RecordIssues(records, records[i], options)
  {
    hide IntrinsicIssues, SequenceIssues, Group, FirstIssues, GroupIssues, PassIssues;
    var vehicles := Vehicles(records);
    FirstIssueMembers(records, |records|, options, x);
    GroupIssueMembers(records, vehicles, |vehicles|, options, x);
    if x in GroupIssues(records, vehicles, |vehicles|, options) {
      var k :| 0 <= k < |vehicles| &&
               var group := Group(records, vehicles[k]); x in PassIssues(group, |group|, options);
      var r := IssueHasRecord(records, vehicles[k], options, x);
      var i :| 0 <= i < |records| && records[i] == r;
      assert x in RecordIssues(records, records[i], options);
    }
    if i :| 0 <= i < |records| && x in RecordIssues(records, records[i], options) {
      if x !in IntrinsicIssues(records[i], options) {
        RecordIssueIsGroupIssue(records, records[i], options, x);
        assert records[i] in records && records[i].vehicleId in vehicles;
        var k :| 0 <= k < |vehicles| && vehicles[k] == records[i].vehicleId;
      }
    }
  }

  lemma IssueHasRecord(records: seq<Record>, vehicle: Id, options: Options, x: Issue) returns (r: Record)
    requires DistinctIds(records)
    requires var group := Group(records, vehicle); x in PassIssues(group, |group|, options)
    ensures r in records && r.vehicleId == vehicle && x in RecordIssues(records, r, options)
  {
    hide SequenceIssues, Group, PassIssues, IntrinsicIssues;
    var group := Group(records, vehicle);
    PassIssueMembers(group, |group|, options, x);
    var i :| 0 <= i < |group| && x in SequenceIssues(group, i, options);
    GroupMembers(records, vehicle);
    GroupIsSorted(records, vehicle);
    PlaceIsUnique(group, i);
    r := group[i];
    assert r in group;
  }

  lemma RecordIssueIsGroupIssue(records: seq<Record>, r: Record, options: Options, x: Issue)
    requires r in records && x in RecordIssues(records, r, options) && x !in IntrinsicIssues(r, options)
    ensures var group := Group(records, r.vehicleId); x in PassIssues(group, |group|, options)
  {
    hide SequenceIssues, Group, PassIssues, IntrinsicIssues;
    GroupMembers(records, r.vehicleId);
    var group := Group(records, r.vehicleId);
    PassIssueMembers(group, |group|, options, x);
    assert x in SequenceIssues(group, PlaceOf(group, r), options);
  }

  lemma {:induction false} EvaluatedMembers(records: seq<Record>, n: nat, options: Options, id: Id)
    requires n <= |records|
    ensures id in Evaluated(records, n, options) <==>
            exists i | 0 <= i < n :: records[i].id == id && OdometerGap in ChecksOf(records, records[i], options)
  {
    hide ChecksOf;
    if n > 0 {
      EvaluatedMembers(records, n - 1, options, id);
    }
  }

  // ----- the order of the input does not matter -----

  lemma {:induction false} VehicleCount(records: seq<Record>, v: Id, x: Record)
    ensures multiset(OfVehicle(records, v))[x] == if x.vehicleId == v then multiset(records)[x] else 0
  {
    if records != [] {
      var last := |records| - 1;
      VehicleCount(records[..last], v, x);
      assert records == records[..last] + [records[last]];
    }
  }

  lemma SameGroups(a: seq<Record>, b: seq<Record>, v: Id)
    requires multiset(a) == multiset(b) && DistinctIds(a) && DistinctIds(b)
    ensures Group(a, v) == Group(b, v)
  {
    var p, q := OfVehicle(a, v), OfVehicle(b, v);
    forall x ensures multiset(p)[x] == multiset(q)[x] {
      VehicleCount(a, v, x);
      VehicleCount(b, v, x);
    }
    assert multiset(p) == multiset(q);
    BeforeIsStrict();
    DistinctIsComparable(p);
    DistinctIsComparable(q);
    Sorting.SortForgetsOrder(p, q, Before);
  }

  lemma SameMembers(a: seq<Record>, b: seq<Record>, x: Record)
    requires multiset(a) == multiset(b)
    ensures x in a <==> x in b
  {
    assert x in multiset(a) <==> x in multiset(b);
  }

  lemma {:induction false} DistinctByCount(records: seq<Record>)
    requires !DistinctIds(records)
    ensures exists x, y :: x in records && y in records && x.id == y.id && (x != y || multiset(records)[x] >= 2)
  {
    var i, j :| 0 <= i < j < |records| && records[i].id == records[j].id;
    if records[i] == records[j] {
      TwiceInMultiset(records, i, j);
    }
  }

  lemma DistinctnessIsOrderFree(a: seq<Record>, b: seq<Record>)
    requires multiset(a) == multiset(b) && DistinctIds(a)
    ensures DistinctIds(b)
  {
    if !DistinctIds(b) {
      DistinctByCount(b);
      var x, y :| x in b && y in b && x.id == y.id && (x != y || multiset(b)[x] >= 2);
      SameMembers(a, b, x);
      SameMembers(a, b, y);
      var i :| 0 <= i < |a| && a[i] == x;
      OnceInMultiset(a, i);
      IdsTell(a, x, y);
    }
  }

  lemma SameRecordResults(a: seq<Record>, b: seq<Record>, r: Record, options: Options)
    requires multiset(a) == multiset(b) && DistinctIds(a) && DistinctIds(b) && r in a && r in b
    ensures RecordIssues(a, r, options) == RecordIssues(b, r, options)
    ensures ChecksOf(a, r, options) == ChecksOf(b, r, options)
  {
    hide Group, DistinctIds, IntrinsicIssues, SequenceIssues, IntrinsicCodes, SequenceCodes;
    SameGroups(a, b, r.vehicleId);
  }

  lemma IssuesForgetOrder(a: seq<Record>, b: seq<Record>, options: Options, x: Issue)
    requires multiset(a) == multiset(b) && DistinctIds(a) && DistinctIds(b) && x in Issues(a, options)
    ensures x in Issues(b, options)
  {
    hide DistinctIds, RecordIssues, ChecksOf, Issues;
    IssueMembers(a, options, x);
    IssueMembers(b, options, x);
    var i :| 0 <= i < |a| && x in RecordIssues(a, a[i], options);
    SameMembers(a, b, a[i]);
    SameRecordResults(a, b, a[i], options);
    var j :| 0 <= j < |b| && b[j] == a[i];
  }

  lemma EvaluatedForgetsOrder(a: seq<Record>, b: seq<Record>, options: Options, id: Id)
    requires multiset(a) == multiset(b) && DistinctIds(a) && DistinctIds(b)
    requires id in Evaluated(a, |a|, options)
    ensures id in Evaluated(b, |b|, options)
  {
    hide DistinctIds, RecordIssues, ChecksOf, Evaluated;
    EvaluatedMembers(a, |a|, options, id);
    EvaluatedMembers(b, |b|, options, id);
    var i :| 0 <= i < |a| && a[i].id == id && OdometerGap in ChecksOf(a, a[i], options);
    SameMembers(a, b, a[i]);
    SameRecordResults(a, b, a[i], options);
    var j :| 0 <= j < |b| && b[j] == a[i];
  }

  lemma ChecksForgetOrder(a: seq<Record>, b: seq<Record>, options: Options,
                          ca: map<Id, set<Code>>, cb: map<Id, set<Code>>, id: Id)
    requires multiset(a) == multiset(b) && DistinctIds(a) && DistinctIds(b)
    requires AreChecks(a, options, ca) && AreChecks(b, options, cb) && id in ca
    ensures id in cb && ca[id] == cb[id]
  {
    hide DistinctIds, RecordIssues, ChecksOf;
    var i :| 0 <= i < |a| && IdsOf(a)[i] == id;
    SameMembers(a, b, a[i]);
    SameRecordResults(a, b, a[i], options);
    var j :| 0 <= j < |b| && b[j] == a[i];
  }

  /** Permuting the records changes neither whether the analysis fails, nor the set of issues, nor the
      evaluated checks, nor the set of evaluated records. */
  lemma OrderDoesNotMatter(a: seq<Record>, b: seq<Record>, options: Options, x: Outcome, y: Outcome)
    requires multiset(a) == multiset(b) && IsAnalysis(a, options, x) && IsAnalysis(b, options, y)
    ensures x.Failed? == y.Failed?
    ensures x.Analyzed? ==>
              && (forall issue :: issue in x.analysis.issues <==> issue in y.analysis.issues)
              && x.analysis.checks == y.analysis.checks
              && (forall id :: id in x.analysis.evaluated <==> id in y.analysis.evaluated)
  {
    hide AreChecks, Issues, Evaluated, ValidLimits, DistinctIds;
    if x.Analyzed? || y.Analyzed? {
      if DistinctIds(a) {
        DistinctnessIsOrderFree(a, b);
      } else {
        DistinctnessIsOrderFree(b, a);
      }
      forall issue ensures issue in x.analysis.issues <==> issue in y.analysis.issues {
        if issue in x.analysis.issues { IssuesForgetOrder(a, b, options, issue); }
        if issue in y.analysis.issues { IssuesForgetOrder(b, a, options, issue); }
      }
      forall id ensures id in x.analysis.evaluated <==> id in y.analysis.evaluated {
        if id in x.analysis.evaluated { EvaluatedForgetsOrder(a, b, options, id); }
        if id in y.analysis.evaluated { EvaluatedForgetsOrder(b, a, options, id); }
      }
      var p, q := x.analysis.checks, y.analysis.checks;
      forall id ensures id in p <==> id in q {
        if id in p { ChecksForgetOrder(a, b, options, p, q, id); }
        if id in q { ChecksForgetOrder(b, a, options, q, p, id); }
      }
      forall id | id in p ensures p[id] == q[id] {
        ChecksForgetOrder(a, b, options, p, q, id);
      }
      assert p.Keys == q.Keys;
    }
  }

  // ----- one issue per record and code -----

  predicate IsSequenceCode(code: Code) {
    code in {OdometerGap, SuspiciousGap, AmbiguousSequence, IncompleteSequence}
  }

  /** No two issues share the record and the code. */
  predicate DistinctKeys(issues: seq<Issue>) {
    forall i, j | 0 <= i < j < |issues| :: issues[i].recordId != issues[j].recordId || issues[i].code != issues[j].code
  }

  predicate AllOf(issues: seq<Issue>, recordId: Id, vehicleId: Id, sequence: bool) {
    forall i | 0 <= i < |issues| ::
      issues[i].recordId == recordId && issues[i].vehicleId == vehicleId && IsSequenceCode(issues[i].code) == sequence
  }

  lemma IntrinsicKeys(r: Record, options: Options)
    ensures DistinctKeys(IntrinsicIssues(r, options)) && AllOf(IntrinsicIssues(r, options), r.id, r.vehicleId, false)
  {
    hide IsReading, Exceeds, RecordDistance, DecimalText;
  }

  lemma SequenceKeys(group: seq<Record>, i: nat, options: Options)
    requires i < |group|
    ensures DistinctKeys(SequenceIssues(group, i, options))
    ensures AllOf(SequenceIssues(group, i, options), group[i].id, group[i].vehicleId, true)
  {
    hide IsReading, OverThreshold, GapBefore, DecimalText, IsCompared, IsAmbiguous, IsIncomplete, AmbiguousReason,
         Latest, PreviousId, HasUnknownTime;
  }

  lemma {:induction false} FirstKeys(records: seq<Record>, n: nat, options: Options)
    requires DistinctIds(records) && n <= |records|
    ensures DistinctKeys(FirstIssues(records, n, options))
    ensures forall x | x in FirstIssues(records, n, options) ::
              !IsSequenceCode(x.code) && exists i | 0 <= i < n :: x.recordId == records[i].id
  {
    hide IntrinsicIssues;
    if n > 0 {
      FirstKeys(records, n - 1, options);
      IntrinsicKeys(records[n - 1], options);
      AppendKeys(FirstIssues(records, n - 1, options), IntrinsicIssues(records[n - 1], options));
    }
  }

  lemma AppendKeys(a: seq<Issue>, b: seq<Issue>)
    requires DistinctKeys(a) && DistinctKeys(b)
    requires forall x, y | x in a && y in b :: x.recordId != y.recordId || x.code != y.code
    ensures DistinctKeys(a + b)
  {
  }

  lemma {:induction false} PassKeys(group: seq<Record>, n: nat, options: Options)
    requires DistinctIds(group) && n <= |group|
    ensures DistinctKeys(PassIssues(group, n, options))
    ensures forall x | x in PassIssues(group, n, options) ::
              IsSequenceCode(x.code) && exists i | 0 <= i < n :: x.recordId == group[i].id
  {
    hide SequenceIssues;
    if n > 0 {
      PassKeys(group, n - 1, options);
      SequenceKeys(group, n - 1, options);
      AppendKeys(PassIssues(group, n - 1, options), SequenceIssues(group, n - 1, options));
    }
  }

  predicate FromVehicle(records: seq<Record>, id: Id, vehicle: Id) {
    exists r :: r in records && r.id == id && r.vehicleId == vehicle
  }

  lemma VehiclePassKeys(records: seq<Record>, vehicle: Id, options: Options)
    requires DistinctIds(records)
    ensures var group := Group(records, vehicle);
            DistinctKeys(PassIssues(group, |group|, options)) &&
            forall x | x in PassIssues(group, |group|, options) ::
              IsSequenceCode(x.code) && FromVehicle(records, x.recordId, vehicle)
  {
    hide PassIssues, Group, DistinctIds;
    var group := Group(records, vehicle);
    GroupIsSorted(records, vehicle);
    GroupMembers(records, vehicle);
    PassKeys(group, |group|, options);
    forall x | x in PassIssues(group, |group|, options) ensures FromVehicle(records, x.recordId, vehicle) {
      var i :| 0 <= i < |group| && x.recordId == group[i].id;
      assert group[i] in group;
    }
  }

  predicate FromFirst(records: seq<Record>, id: Id, vehicles: seq<Id>, n: nat)
    requires n <= |vehicles|
  {
    exists k | 0 <= k < n :: FromVehicle(records, id, vehicles[k])
  }

  predicate GroupCodes(issues: seq<Issue>, records: seq<Record>, vehicles: seq<Id>, n: nat)
    requires n <= |vehicles|
  {
    forall x | x in issues :: IsSequenceCode(x.code) && FromFirst(records, x.recordId, vehicles, n)
  }

  lemma CrossKeys(records: seq<Record>, vehicles: seq<Id>, n: nat, a: seq<Issue>, b: seq<Issue>)
    requires DistinctIds(records) && n < |vehicles| && vehicles[n] !in vehicles[..n]
    requires GroupCodes(a, records, vehicles, n)
    requires forall y | y in b :: IsSequenceCode(y.code) && FromVehicle(records, y.recordId, vehicles[n])
    ensures forall x, y | x in a && y in b :: x.recordId != y.recordId
    ensures GroupCodes(a + b, records, vehicles, n + 1)
  {
    hide FromVehicle, DistinctIds;
    forall x, y | x in a && y in b ensures x.recordId != y.recordId {
      var k :| 0 <= k < n && FromVehicle(records, x.recordId, vehicles[k]);
      OneVehicle(records, x.recordId, y.recordId, vehicles[k], vehicles[n]);
    }
    forall x | x in a + b ensures FromFirst(records, x.recordId, vehicles, n + 1) {
      if x in a {
        var k :| 0 <= k < n && FromVehicle(records, x.recordId, vehicles[k]);
      }
    }
  }

  lemma GroupKeysStep(records: seq<Record>, n: nat, a: seq<Issue>, b: seq<Issue>)
    requires DistinctIds(records) && n < |Vehicles(records)| && DistinctKeys(a) && DistinctKeys(b)
    requires GroupCodes(a, records, Vehicles(records), n)
    requires forall y | y in b :: IsSequenceCode(y.code) && FromVehicle(records, y.recordId, Vehicles(records)[n])
    ensures DistinctKeys(a + b) && GroupCodes(a + b, records, Vehicles(records), n + 1)
  {
    hide DistinctKeys, Vehicles, FromVehicle, GroupCodes, DistinctIds;
    VehicleIsNew(records, n);
    CrossKeys(records, Vehicles(records), n, a, b);
    AppendKeys(a, b);
  }

  lemma {:induction false} GroupKeys(records: seq<Record>, n: nat, options: Options)
    requires DistinctIds(records) && n <= |Vehicles(records)|
    ensures DistinctKeys(GroupIssues(records, Vehicles(records), n, options))
    ensures GroupCodes(GroupIssues(records, Vehicles(records), n, options), records, Vehicles(records), n)
  {
    hide PassIssues, Group, DistinctKeys, Vehicles, FromVehicle, GroupCodes, DistinctIds, IsSequenceCode;
    if n > 0 {
      var vehicles := Vehicles(records);
      var group := Group(records, vehicles[n - 1]);
      var a, b := GroupIssues(records, vehicles, n - 1, options), PassIssues(group, |group|, options);
      GroupKeys(records, n - 1, options);
      VehiclePassKeys(records, vehicles[n - 1], options);
      GroupKeysStep(records, n - 1, a, b);
    } else {
      NoKeys(records);
    }
  }

  lemma NoKeys(records: seq<Record>)
    ensures DistinctKeys([]) && GroupCodes([], records, Vehicles(records), 0)
  {
  }

  lemma OneVehicle(records: seq<Record>, x: Id, y: Id, v: Id, w: Id)
    requires DistinctIds(records) && FromVehicle(records, x, v) && FromVehicle(records, y, w) && v != w
    ensures x != y
  {
    var r :| r in records && r.id == x && r.vehicleId == v;
    var s :| s in records && s.id == y && s.vehicleId == w;
    if x == y {
      IdsTell(records, r, s);
    }
  }

  /** The record and the code identify an issue. */
  lemma KeysIdentifyIssues(records: seq<Record>, options: Options)
    requires DistinctIds(records)
    ensures DistinctKeys(Issues(records, options))
  {
    hide DistinctIds, FirstIssues, GroupIssues, DistinctKeys, Vehicles, FromVehicle;
    FirstKeys(records, |records|, options);
    GroupKeys(records, |Vehicles(records)|, options);
    AppendKeys(FirstIssues(records, |records|, options),
               GroupIssues(records, Vehicles(records), |Vehicles(records)|, options));
  }

  // ----- evaluated checks -----

  lemma IntrinsicVerified(r: Record, options: Options, x: Issue)
    requires x in IntrinsicIssues(r, options)
    ensures !IsSequenceCode(x.code) && (x.verified ==> x.code in IntrinsicCodes(r, options))
  {
    hide IsReading, Exceeds, RecordDistance, DecimalText;
  }

  lemma SequenceVerified(group: seq<Record>, i: nat, options: Options, x: Issue)
    requires i < |group| && x in SequenceIssues(group, i, options)
    ensures IsSequenceCode(x.code) && (x.verified <==> x.code in SequenceCodes(group, i, options))
  {
    hide IsReading, Exceeds, GapBefore, DecimalText, IsAmbiguous, IsIncomplete, AmbiguousReason, Latest, PreviousId,
         HasUnknownTime;
  }

  lemma NoSequenceCodes(r: Record, options: Options)
    ensures forall code | code in IntrinsicCodes(r, options) :: !IsSequenceCode(code)
  {
    hide IsReading;
  }

  /** A verified issue's check was evaluated; a pending issue about the sequence was not. */
  lemma VerifiedIsEvaluated(records: seq<Record>, options: Options, r: Record, x: Issue)
    requires r in records && x in RecordIssues(records, r, options)
    ensures x.verified ==> x.code in ChecksOf(records, r, options)
    ensures !x.verified && IsSequenceCode(x.code) ==> x.code !in ChecksOf(records, r, options)
  {
    hide IntrinsicIssues, IntrinsicCodes, SequenceIssues, SequenceCodes, IsSequenceCode, Group;
    GroupMembers(records, r.vehicleId);
    var group := Group(records, r.vehicleId);
    NoSequenceCodes(r, options);
    if x in IntrinsicIssues(r, options) {
      IntrinsicVerified(r, options, x);
    } else {
      SequenceVerified(group, PlaceOf(group, r), options, x);
    }
  }

  /** The records of the input that belong to a vehicle. */
  predicate OnVehicle(records: seq<Record>, x: Record, vehicle: Id) {
    x in records && x.vehicleId == vehicle
  }

  /** `p` comes right before `r` among the records of its vehicle. */
  predicate RightBefore(records: seq<Record>, p: Record, r: Record) {
    OnVehicle(records, p, r.vehicleId) && Before(p, r) &&
    forall i | 0 <= i < |records| && records[i].vehicleId == r.vehicleId && Before(records[i], r) ::
      records[i] == p || Before(records[i], p)
  }

  /** The times of all records of a vehicle are known. */
  predicate TimesKnown(records: seq<Record>, vehicle: Id) {
    forall i | 0 <= i < |records| && records[i].vehicleId == vehicle ::
      records[i].startedAt.Some? && records[i].endedAt.Some?
  }

  /** No other record of the vehicle strictly overlaps this one. */
  predicate StandsAlone(records: seq<Record>, r: Record)
    requires TimesKnown(records, r.vehicleId) && r in records
  {
    forall i | 0 <= i < |records| && records[i].vehicleId == r.vehicleId && records[i] != r ::
      !StrictlyOverlap(r, records[i])
  }

  lemma GroupTimes(records: seq<Record>, vehicle: Id)
    ensures AllKnown(Group(records, vehicle)) <==> TimesKnown(records, vehicle)
  {
    hide Group;
    GroupMembers(records, vehicle);
    var group := Group(records, vehicle);
    if AllKnown(group) {
      forall i | 0 <= i < |records| && records[i].vehicleId == vehicle
        ensures records[i].startedAt.Some? && records[i].endedAt.Some?
      {
        assert records[i] in group;
      }
    }
    if TimesKnown(records, vehicle) {
      forall i | 0 <= i < |group| ensures group[i].startedAt.Some? && group[i].endedAt.Some? {
        assert group[i] in group;
      }
    }
  }

  lemma GroupPredecessor(records: seq<Record>, r: Record, p: Record, i: nat)
    requires DistinctIds(records) && r in records
    requires var group := Group(records, r.vehicleId); 0 < i < |group| && group[i] == r && group[i - 1] == p
    requires var group := Group(records, r.vehicleId);
             forall k | 0 <= k < |group| && Before(group[k], r) :: k == i - 1 || Before(group[k], p)
    ensures RightBefore(records, p, r)
  {
    hide Group, DistinctIds, Before;
    var group := Group(records, r.vehicleId);
    GroupMembers(records, r.vehicleId);
    GroupIsSorted(records, r.vehicleId);
    assert p in group;
    forall j | 0 <= j < |records| && records[j].vehicleId == r.vehicleId && Before(records[j], r)
      ensures records[j] == p || Before(records[j], p)
    {
      var k := PlaceOf(group, records[j]);
    }
  }

  lemma GroupStandsAlone(records: seq<Record>, i: nat, vehicle: Id)
    requires TimesKnown(records, vehicle)
    requires var group := Group(records, vehicle);
             AllKnown(group) && i < |group| && group[i] in records && group[i].vehicleId == vehicle &&
             forall k | 0 <= k < |group| && k != i :: !StrictlyOverlap(group[i], group[k])
    ensures StandsAlone(records, Group(records, vehicle)[i])
  {
    hide Group, StrictlyOverlap;
    var group := Group(records, vehicle);
    GroupMembers(records, vehicle);
    forall j | 0 <= j < |records| && records[j].vehicleId == vehicle && records[j] != group[i]
      ensures !StrictlyOverlap(group[i], records[j])
    {
      var k := PlaceOf(group, records[j]);
    }
  }

  /** An evaluated gap, in terms of the input alone: coverage was confirmed, all times of the vehicle
      are known, and the record was compared with its immediate predecessor, neither of the two
      strictly overlapping any other record of the vehicle. */
  lemma EvaluatedGapStandsAlone(records: seq<Record>, options: Options, r: Record) returns (p: Record)
    requires DistinctIds(records) && r in records && OdometerGap in ChecksOf(records, r, options)
    ensures options.sequenceComplete && TimesKnown(records, r.vehicleId)
    ensures RightBefore(records, p, r) && StandsAlone(records, r) && StandsAlone(records, p)
  {
    hide Group, SequenceCodes, StrictlyOverlap, DistinctIds, RightBefore, StandsAlone, TimesKnown, Before;
    var vehicle := r.vehicleId;
    var group := Group(records, vehicle);
    GroupMembers(records, vehicle);
    GroupIsSorted(records, vehicle);
    var i := PlaceOf(group, r);
    assert OdometerGap in SequenceCodes(group, i, options);
    EvaluatedGapIsSafe(group, i, options);
    GroupTimes(records, vehicle);
    p := group[i - 1];
    assert p in group;
    GroupPredecessor(records, r, p, i);
    GroupStandsAlone(records, i, vehicle);
    GroupStandsAlone(records, i - 1, vehicle);
  }
}
