/** The one-pass sweep against the all-pairs definition of overlap, and what an evaluated gap means. */
module OdometerSweep {
  import opened Prelude
  import opened Decimals
  import opened ExactDecimals
  import opened Odometer
  import Sorting

  // ----- the all-pairs definition -----

  predicate AllKnown(group: seq<Record>) {
    forall i | 0 <= i < |group| :: group[i].startedAt.Some? && group[i].endedAt.Some?
  }

  /** A group as the pass sees it: sorted, with distinct identifiers. */
  predicate IsGroup(group: seq<Record>) {
    Sorting.Sorted(group, Before) && DistinctIds(group)
  }

  /** Two intervals have more than an end point in common. */
  predicate StrictlyOverlap(a: Record, b: Record)
    requires a.startedAt.Some? && a.endedAt.Some? && b.startedAt.Some? && b.endedAt.Some?
  {
    a.startedAt.value < b.endedAt.value && b.startedAt.value < a.endedAt.value
  }

  /** One start, or intervals that strictly overlap; what is unknown does not clash. */
  predicate Clash(a: Record, b: Record) {
    && a.startedAt.Some? && b.startedAt.Some?
    && (a.startedAt == b.startedAt || (a.endedAt.Some? && b.endedAt.Some? && StrictlyOverlap(a, b)))
  }

  /** The record at `i` shares its start with, or strictly overlaps, some other record of the group. */
  predicate Clashes(group: seq<Record>, i: nat)
    requires i < |group|
  {
    exists j | 0 <= j < |group| :: j != i && Clash(group[i], group[j])
  }

  /** Every interval runs forwards. */
  predicate Forward(group: seq<Record>) {
    AllKnown(group) && forall i | 0 <= i < |group| :: !Inverted(group[i])
  }

  // ----- what the sweep holds and marks -----

  /** Unknown starts come last. */
  lemma StartsAscend(group: seq<Record>, i: nat, j: nat)
    requires IsGroup(group) && i <= j < |group| && group[j].startedAt.Some?
    ensures group[i].startedAt.Some? && group[i].startedAt.value <= group[j].startedAt.value
  {
    assert i < j ==> Before(group[i], group[j]);
  }

  lemma {:induction false} MarksStay(group: seq<Record>, m: nat, n: nat)
    requires m <= n <= |group|
    ensures SweepTo(group, m).ambiguous <= SweepTo(group, n).ambiguous
    decreases n - m
  {
    if m < n {
      MarksStay(group, m, n - 1);
    }
  }

  /** Something is held as soon as some end is known. */
  lemma {:induction false} SomethingIsHeld(group: seq<Record>, n: nat, m: nat)
    requires m < n <= |group| && group[m].endedAt.Some?
    ensures SweepTo(group, n).held.Some?
  {
    if m < n - 1 {
      SomethingIsHeld(group, n - 1, m);
    }
  }

  /** No known end among the first `n` comes after this one, and no later one of them comes as late. */
  predicate IsLatestEnd(group: seq<Record>, h: nat, n: nat)
    requires h < |group| && n <= |group|
  {
    && group[h].endedAt.Some?
    && (forall k | 0 <= k < n && group[k].endedAt.Some? :: group[k].endedAt.value <= group[h].endedAt.value)
    && (forall k | h < k < n && group[k].endedAt.Some? :: group[k].endedAt.value < group[h].endedAt.value)
  }

  /** The held interval is the last of those with the latest end. */
  lemma {:induction false} HeldIsLatest(group: seq<Record>, n: nat) returns (h: nat)
    requires n <= |group| && SweepTo(group, n).held.Some?
    ensures h < n && SweepTo(group, n).held == Some(group[h]) && IsLatestEnd(group, h, n)
  {
    h := n - 1;
    if SweepTo(group, n - 1).held.Some? {
      var before := HeldIsLatest(group, n - 1);
      if !Replaces(Some(group[before]), group[n - 1]) {
        h := before;
      }
    } else {
      forall k | 0 <= k < n - 1 ensures group[k].endedAt.None? {
        if group[k].endedAt.Some? {
          SomethingIsHeld(group, n - 1, k);
        }
      }
    }
  }

  /** A candidate that the held interval meets is marked for good, and so is the holder. */
  lemma MeetingIsMarked(group: seq<Record>, h: nat, i: nat)
    requires h < |group| && i < |group| && SweepTo(group, i).held == Some(group[h]) && Meets(group[h], group[i])
    ensures group[h].id in Ambiguous(group) && group[i].id in Ambiguous(group)
  {
    hide SweepTo, Meets, Inverted, Replaces;
    SweepStep(group, i);
    MarksStay(group, i + 1, |group|);
    MeetingMarks(SweepTo(group, i), group[h], group[i]);
  }

  lemma MeetingMarks(state: Sweep, holder: Record, candidate: Record)
    requires state.held == Some(holder) && Meets(holder, candidate)
    ensures {holder.id, candidate.id} <= SweepOne(state, candidate).ambiguous
  {
    hide Meets, Inverted, Replaces;
  }

  lemma SweepStep(group: seq<Record>, i: nat)
    requires i < |group|
    ensures SweepTo(group, i + 1) == SweepOne(SweepTo(group, i), group[i])
  {
  }

  /** The earlier record, whose end is known, reaches past the start of the later one, or starts with it. */
  predicate Reaches(group: seq<Record>, i: nat, j: nat)
    requires i < |group| && j < |group|
  {
    && group[i].endedAt.Some? && group[j].startedAt.Some?
    && (group[i].endedAt.value > group[j].startedAt.value || group[i].startedAt == group[j].startedAt)
  }

  /** A record is marked when it reaches the next one. */
  lemma FirstIsMarked(group: seq<Record>, i: nat)
    requires IsGroup(group) && i + 1 < |group| && !Inverted(group[i]) && Reaches(group, i, i + 1)
    ensures group[i].id in Ambiguous(group)
  {
    hide SweepTo, Ambiguous, IsGroup;
    StartsAscend(group, i, i + 1);
    SomethingIsHeld(group, i + 1, i);
    var h := HeldIsLatest(group, i + 1);
    if h == i {
      MeetingIsMarked(group, i, i + 1);
    } else {
      NotTakenOver(group, i, h);
      MeetingIsMarked(group, h, i);
    }
  }

  lemma NotTakenOver(group: seq<Record>, i: nat, h: nat)
    requires h < i < |group| && IsGroup(group) && group[i].endedAt.Some? && group[h].endedAt.Some?
    requires SweepTo(group, i + 1).held == Some(group[h])
    ensures SweepTo(group, i).held == Some(group[h]) && group[i].endedAt.value < group[h].endedAt.value
  {
    SomethingIsHeld(group, i, h);
    var before := HeldIsLatest(group, i);
  }

  /** A record that reaches past a later start is marked, and so is the later record. */
  lemma ReachingIsMarked(group: seq<Record>, i: nat, j: nat)
    requires IsGroup(group) && i < j < |group| && group[i].endedAt.Some? && group[j].startedAt.Some?
    requires group[i].endedAt.value > group[j].startedAt.value
    ensures group[i].id in Ambiguous(group) && group[j].id in Ambiguous(group)
  {
    hide SweepTo, Ambiguous, IsGroup;
    StartsAscend(group, i + 1, j);
    StartsAscend(group, i, i + 1);
    FirstIsMarked(group, i);
    SomethingIsHeld(group, j, i);
    var h := HeldIsLatest(group, j);
    MeetingIsMarked(group, h, j);
  }

  /** Of two records with one start, both are marked if the first runs forwards. */
  lemma TiedIsMarked(group: seq<Record>, i: nat, j: nat)
    requires IsGroup(group) && i < j < |group| && group[i].endedAt.Some? && group[j].startedAt.Some?
    requires group[i].startedAt == group[j].startedAt && !Inverted(group[i])
    ensures group[i].id in Ambiguous(group) && group[j].id in Ambiguous(group)
  {
    hide SweepTo, Ambiguous, IsGroup;
    StartsAscend(group, i + 1, j);
    StartsAscend(group, i, i + 1);
    FirstIsMarked(group, i);
    SomethingIsHeld(group, j, i);
    var h := HeldIsLatest(group, j);
    StartsAscend(group, h, j);
    if h >= i {
      StartsAscend(group, i, h);
    }
    MeetingIsMarked(group, h, j);
  }

  lemma {:induction false} MarkIsAmongFirst(group: seq<Record>, n: nat, k: nat)
    requires IsGroup(group) && n <= k < |group|
    ensures group[k].id !in SweepTo(group, n).ambiguous
  {
    if n > 0 {
      MarkIsAmongFirst(group, n - 1, k);
      if SweepTo(group, n - 1).held.Some? {
        var h := HeldIsLatest(group, n - 1);
      }
    }
  }

  // ----- the main results -----

  /** Some earlier record ends after the start of the record at `i`. */
  predicate ReachedFromBefore(group: seq<Record>, i: nat)
    requires i < |group|
  {
    group[i].startedAt.Some? &&
    exists j | 0 <= j < i :: group[j].endedAt.Some? && group[j].endedAt.value > group[i].startedAt.value
  }

  /** Some later record starts before the record at `i` ends, or starts with it. */
  predicate ReachesOn(group: seq<Record>, i: nat)
    requires i < |group|
  {
    exists j | i < j < |group| :: Reaches(group, i, j)
  }

  predicate StartsWith(group: seq<Record>, j: nat, i: nat)
    requires j < |group| && i < |group|
  {
    group[i].startedAt.Some? && group[j].startedAt == group[i].startedAt
  }

  /** Some earlier record starts with the record at `i`. */
  predicate TiedBefore(group: seq<Record>, i: nat)
    requires i < |group|
  {
    exists j | 0 <= j < i :: StartsWith(group, j, i)
  }

  /** Such a record, moreover, is known to end no earlier than every record that starts before it. */
  predicate HeldTie(group: seq<Record>, i: nat)
    requires i < |group|
  {
    exists j | 0 <= j < i :: StartsWith(group, j, i) && EndsLast(group, j, i)
  }

  predicate EndsLast(group: seq<Record>, j: nat, i: nat)
    requires j < i < |group|
  {
    group[j].endedAt.Some? &&
    forall k | 0 <= k < i && !StartsWith(group, k, i) && group[k].endedAt.Some? ::
      group[k].endedAt.value <= group[j].endedAt.value
  }

  /** What makes the sweep mark a record, in terms of the known times alone. */
  predicate HasCause(group: seq<Record>, i: nat)
    requires i < |group|
  {
    Inverted(group[i]) || ReachedFromBefore(group, i) || ReachesOn(group, i) || HeldTie(group, i)
  }

  lemma CauseIsMarked(group: seq<Record>, i: nat)
    requires IsGroup(group) && i < |group| && HasCause(group, i)
    ensures group[i].id in Ambiguous(group)
  {
    hide SweepTo, Ambiguous, IsGroup, EndsLast;
    if Inverted(group[i]) {
      InvertedIsMarked(group, i);
    } else if ReachedFromBefore(group, i) {
      var j :| 0 <= j < i && group[j].endedAt.Some? && group[j].endedAt.value > group[i].startedAt.value;
      ReachingIsMarked(group, j, i);
    } else if ReachesOn(group, i) {
      var j :| i < j < |group| && Reaches(group, i, j);
      if group[i].startedAt == group[j].startedAt {
        TiedIsMarked(group, i, j);
      } else {
        ReachingIsMarked(group, i, j);
      }
    } else {
      HeldTieIsMarked(group, i);
    }
  }

  lemma InvertedIsMarked(group: seq<Record>, i: nat)
    requires i < |group| && Inverted(group[i])
    ensures group[i].id in Ambiguous(group)
  {
    SweepStep(group, i);
    hide SweepTo, Meets;
    MarksStay(group, i + 1, |group|);
  }

  lemma HeldTieIsMarked(group: seq<Record>, i: nat)
    requires IsGroup(group) && i < |group| && HeldTie(group, i)
    ensures group[i].id in Ambiguous(group)
  {
    hide SweepTo, Ambiguous, IsGroup;
    var j :| 0 <= j < i && StartsWith(group, j, i) && EndsLast(group, j, i);
    SomethingIsHeld(group, i, j);
    var h := HeldIsLatest(group, i);
    if !StartsWith(group, h, i) {
      StartsAscend(group, h, i);
      StartsAscend(group, if h <= j then h else j, if h <= j then j else h);
    }
    MeetingIsMarked(group, h, i);
  }

  lemma {:induction false} MarkHasCause(group: seq<Record>, n: nat, i: nat)
    requires IsGroup(group) && i < n <= |group| && group[i].id in SweepTo(group, n).ambiguous
    ensures HasCause(group, i)
  {
    hide EndsLast, HeldTie, ReachesOn, ReachedFromBefore;
    var last := n - 1;
    SweepStep(group, last);
    hide SweepTo;
    if group[i].id in SweepTo(group, last).ambiguous {
      MarkIsAmongFirst(group, last, last);
      MarkHasCause(group, last, i);
    } else if !Inverted(group[i]) {
      MetHasCause(group, last, i);
    }
  }

  /** A record marked by a meeting is the candidate or the held record. */
  lemma MetHasCause(group: seq<Record>, last: nat, i: nat)
    requires IsGroup(group) && i <= last < |group| && !Inverted(group[i])
    requires var state := SweepTo(group, last);
             state.held.Some? && Meets(state.held.value, group[last]) && group[i].id in {group[last].id, state.held.value.id}
    ensures HasCause(group, i)
  {
    hide SweepTo, EndsLast;
    var h := HeldIsLatest(group, last);
    if i == last {
      if group[h].endedAt.value <= group[i].startedAt.value {
        assert StartsWith(group, h, i);
        HolderEndsLast(group, h, i);
      }
    } else {
      assert i == h;
      assert Reaches(group, i, last);
    }
  }

  lemma HolderEndsLast(group: seq<Record>, h: nat, i: nat)
    requires h < i < |group| && IsLatestEnd(group, h, i)
    ensures EndsLast(group, h, i)
  {
  }

  /** Whatever the times are like, inverted or unknown, the single pass marks exactly the records that are
      inverted, that an earlier record reaches, that reach or tie with a later record, or that tie with an
      earlier record which is known to end no earlier than all records before the tie. */
  lemma SweepMarksExactly(group: seq<Record>, i: nat)
    requires IsGroup(group) && i < |group|
    ensures group[i].id in Ambiguous(group) <==> HasCause(group, i)
  {
    hide SweepTo, HasCause, IsGroup;
    if group[i].id in Ambiguous(group) {
      MarkHasCause(group, |group|, i);
    }
    if HasCause(group, i) {
      CauseIsMarked(group, i);
    }
  }

  /** The interval is inverted, or it is not known where it ends. */
  predicate Irregular(r: Record) {
    r.endedAt.None? || Inverted(r)
  }

  /** The record clashes with nothing, yet is inverted, is reached and does not end as far as known, or reaches
      an irregular one. */
  predicate MarkedWithoutClash(group: seq<Record>, i: nat)
    requires i < |group|
  {
    && !Clashes(group, i)
    && (Inverted(group[i]) || (group[i].endedAt.None? && ReachedFromBefore(group, i)) ||
        exists j | i < j < |group| :: Reaches(group, i, j) && Irregular(group[j]))
  }

  /** Some later record starts with the record at `i`. */
  predicate TiedAfter(group: seq<Record>, i: nat)
    requires i < |group|
  {
    exists j | i < j < |group| :: StartsWith(group, j, i)
  }

  /** The record ties with others and is not inverted, but the sweep holds none of them when it comes to it:
      some record before the tie outlasts all that are known to end, or its own end is unknown. */
  predicate ForgottenTie(group: seq<Record>, i: nat)
    requires i < |group|
  {
    && !Inverted(group[i]) && (TiedBefore(group, i) || TiedAfter(group, i))
    && !HeldTie(group, i) && !ReachedFromBefore(group, i) && !ReachesOn(group, i)
  }

  /** The sweep and the all-pairs definition differ about a record in exactly these two ways; both take an
      inverted record or an unknown time. */
  lemma SweepDiffersExactly(group: seq<Record>, i: nat)
    requires IsGroup(group) && i < |group|
    ensures !(group[i].id in Ambiguous(group) <==> Clashes(group, i)) <==>
            MarkedWithoutClash(group, i) || ForgottenTie(group, i)
    ensures MarkedWithoutClash(group, i) || ForgottenTie(group, i) ==> !Forward(group)
  {
    SweepMarksExactly(group, i);
    hide Ambiguous, SweepTo, EndsLast;
    if Clashes(group, i) {
      ClashIsCauseOrTie(group, i);
    } else {
      CauseWithoutClash(group, i);
    }
    if ForgottenTie(group, i) {
      ForgottenTieIsIrregular(group, i);
    }
  }

  lemma ClashIsCauseOrTie(group: seq<Record>, i: nat)
    requires IsGroup(group) && i < |group| && Clashes(group, i)
    ensures ReachedFromBefore(group, i) || ReachesOn(group, i) || TiedBefore(group, i) || TiedAfter(group, i)
  {
    var j :| 0 <= j < |group| && j != i && Clash(group[i], group[j]);
    if group[j].startedAt == group[i].startedAt {
      assert StartsWith(group, j, i);
    } else if i < j {
      assert Reaches(group, i, j);
    }
  }

  lemma CauseWithoutClash(group: seq<Record>, i: nat)
    requires IsGroup(group) && i < |group| && !Clashes(group, i)
    ensures HasCause(group, i) <==> MarkedWithoutClash(group, i)
    ensures !ForgottenTie(group, i)
  {
    hide EndsLast;
    forall j | 0 <= j < |group| && j != i ensures !StartsWith(group, j, i) {
      assert !Clash(group[i], group[j]);
    }
    if group[i].startedAt.Some? && group[i].endedAt.Some? && !Inverted(group[i]) {
      forall j | 0 <= j < i && group[j].endedAt.Some? ensures group[j].endedAt.value <= group[i].startedAt.value {
        StartsAscend(group, j, i);
        assert !Clash(group[i], group[j]);
      }
    }
    forall j | i < j < |group| && Reaches(group, i, j) ensures Irregular(group[j]) {
      StartsAscend(group, i, j);
      assert !Clash(group[i], group[j]);
    }
  }

  /** A tie is forgotten only if it has an inverted record or an unknown end. */
  lemma ForgottenTieIsIrregular(group: seq<Record>, i: nat)
    requires IsGroup(group) && i < |group| && ForgottenTie(group, i)
    ensures !Forward(group)
  {
    forall j | i < j < |group| && StartsWith(group, j, i) ensures group[i].endedAt.None? {
      assert !Reaches(group, i, j);
    }
    forall j | 0 <= j < i && StartsWith(group, j, i) ensures !EndsLast(group, j, i) {
    }
  }

  /** On forward intervals the single pass marks exactly the records that clash with another one. */
  lemma SweepIsAllPairs(group: seq<Record>, i: nat)
    requires IsGroup(group) && Forward(group) && i < |group|
    ensures group[i].id in Ambiguous(group) <==> Clashes(group, i)
  {
    hide Ambiguous, Clashes, IsGroup, MarkedWithoutClash, ForgottenTie;
    SweepDiffersExactly(group, i);
  }

  lemma {:induction false} LatestIsEarlier(group: seq<Record>, n: nat) returns (k: nat)
    requires n <= |group| && Latest(group, n).Some?
    ensures k < n && Latest(group, n) == Some(group[k])
  {
    k := n - 1;
    if Latest(group, n) == Latest(group, n - 1) {
      k := LatestIsEarlier(group, n - 1);
    }
  }

  lemma {:induction false} LatestReaches(group: seq<Record>, n: nat, k: nat)
    requires k < n <= |group| && group[k].endedAt.Some?
    ensures Latest(group, n).Some? && Latest(group, n).value.endedAt.value >= group[k].endedAt.value
  {
    if k < n - 1 {
      LatestReaches(group, n - 1, k);
    }
  }

  lemma OverlappingIsReached(group: seq<Record>, i: nat)
    requires i < |group|
    ensures Overlapping(group, i) <==> ReachedFromBefore(group, i)
  {
    hide Latest;
    if Overlapping(group, i) {
      var k := LatestIsEarlier(group, i);
    }
    if ReachedFromBefore(group, i) {
      var j :| 0 <= j < i && group[j].endedAt.Some? && group[j].endedAt.value > group[i].startedAt.value;
      LatestReaches(group, i, j);
    }
  }

  /** Whatever the times are like, a record is reported ambiguous exactly when the sweep has cause to mark it
      or its predecessor, or it starts with its predecessor; with every end known, the latter is among the
      causes. */
  lemma AmbiguousExactly(group: seq<Record>, i: nat)
    requires IsGroup(group) && i < |group|
    ensures IsAmbiguous(group, i) <==>
            HasCause(group, i) || (i > 0 && (HasCause(group, i - 1) || StartsWith(group, i - 1, i)))
    ensures i > 0 && group[i - 1].endedAt.Some? && StartsWith(group, i - 1, i) ==> HasCause(group, i - 1)
  {
    hide Ambiguous, HeldTie, Overlapping, ReachedFromBefore;
    SweepMarksExactly(group, i);
    OverlappingIsReached(group, i);
    if i > 0 {
      SweepMarksExactly(group, i - 1);
      assert group[i - 1].endedAt.Some? && StartsWith(group, i - 1, i) ==> Reaches(group, i - 1, i);
    }
  }

  /** On forward intervals a record is reported ambiguous exactly when it, or its predecessor,
      clashes with some other record. */
  lemma AmbiguousIsAllPairs(group: seq<Record>, i: nat)
    requires IsGroup(group) && Forward(group) && i < |group|
    ensures IsAmbiguous(group, i) <==> Clashes(group, i) || (i > 0 && Clashes(group, i - 1))
  {
    hide IsAmbiguous, HasCause, Clashes, Ambiguous, IsGroup;
    AmbiguousExactly(group, i);
    SweepMarksExactly(group, i);
    SweepIsAllPairs(group, i);
    if i > 0 {
      SweepMarksExactly(group, i - 1);
      SweepIsAllPairs(group, i - 1);
    }
  }

  lemma KnownExactly(group: seq<Record>)
    ensures AllKnown(group) <==> !HasUnknownTime(group)
  {
  }

  /** When the gap check counts as evaluated, in any group: coverage confirmed, every time known, a
      predecessor, both readings present, and no cause to mark either of the two records; on forward
      intervals this means that neither clashes with any other. */
  lemma GapIsEvaluatedExactly(group: seq<Record>, i: nat, options: Options)
    requires IsGroup(group) && i < |group|
    ensures OdometerGap in SequenceCodes(group, i, options) <==>
              && options.sequenceComplete && AllKnown(group)
              && i > 0 && IsReading(group[i - 1].endKm) && IsReading(group[i].startKm)
              && !HasCause(group, i) && !HasCause(group, i - 1)
    ensures Forward(group) ==>
              (OdometerGap in SequenceCodes(group, i, options) <==>
                 && options.sequenceComplete
                 && i > 0 && IsReading(group[i - 1].endKm) && IsReading(group[i].startKm)
                 && !Clashes(group, i) && !Clashes(group, i - 1))
  {
    hide IsAmbiguous, HeldTie, ReachedFromBefore, ReachesOn, Clashes, IsGroup;
    KnownExactly(group);
    if AllKnown(group) {
      AmbiguousExactly(group, i);
      if Forward(group) {
        AmbiguousIsAllPairs(group, i);
      }
    }
  }

  /** In any group: an evaluated gap had its coverage confirmed and every time known, compared the
      record with its immediate predecessor, and no other record strictly overlaps either of the two. */
  lemma EvaluatedGapIsSafe(group: seq<Record>, i: nat, options: Options)
    requires IsGroup(group) && i < |group| && OdometerGap in SequenceCodes(group, i, options)
    ensures options.sequenceComplete && AllKnown(group) && i > 0
    ensures forall k | 0 <= k < |group| && Before(group[k], group[i]) :: k == i - 1 || Before(group[k], group[i - 1])
    ensures forall k | 0 <= k < |group| && k != i :: !StrictlyOverlap(group[i], group[k])
    ensures forall k | 0 <= k < |group| && k != i - 1 :: !StrictlyOverlap(group[i - 1], group[k])
  {
    hide SequenceCodes, Ambiguous, Before, IsGroup, StrictlyOverlap;
    GapIsClear(group, i, options);
    ImmediatePredecessor(group, i);
    forall k | 0 <= k < |group| && k != i ensures !StrictlyOverlap(group[i], group[k]) {
      UnmarkedDoesNotOverlap(group, i, k);
    }
    forall k | 0 <= k < |group| && k != i - 1 ensures !StrictlyOverlap(group[i - 1], group[k]) {
      UnmarkedDoesNotOverlap(group, i - 1, k);
    }
  }

  lemma GapIsClear(group: seq<Record>, i: nat, options: Options)
    requires i < |group| && OdometerGap in SequenceCodes(group, i, options)
    ensures options.sequenceComplete && AllKnown(group) && i > 0
    ensures group[i].id !in Ambiguous(group) && group[i - 1].id !in Ambiguous(group)
  {
    assert IsCompared(group, i, options);
    hide Ambiguous, Latest;
  }

  lemma ImmediatePredecessor(group: seq<Record>, i: nat)
    requires IsGroup(group) && 0 < i < |group|
    ensures forall k | 0 <= k < |group| && Before(group[k], group[i]) :: k == i - 1 || Before(group[k], group[i - 1])
  {
    forall k | 0 <= k < |group| && Before(group[k], group[i]) ensures k == i - 1 || Before(group[k], group[i - 1]) {
      assert k > i ==> Before(group[i], group[k]);
      assert k < i - 1 ==> Before(group[k], group[i - 1]);
    }
  }

  lemma UnmarkedDoesNotOverlap(group: seq<Record>, i: nat, k: nat)
    requires IsGroup(group) && AllKnown(group) && i < |group| && k < |group| && i != k
    requires group[i].id !in Ambiguous(group)
    ensures !StrictlyOverlap(group[i], group[k])
  {
    if StrictlyOverlap(group[i], group[k]) {
      ReachingIsMarked(group, if i < k then i else k, if i < k then k else i);
    }
  }

  /** A record that clashes with nothing is marked because it reaches into a later, inverted one. */
  lemma InvertedMarksItsHolder()
    ensures var group := [Record(1, 1, Some(0), Some(10), None, None), Record(2, 1, Some(5), Some(-3), None, None)];
            IsGroup(group) && AllKnown(group) && !Inverted(group[0]) && !Clashes(group, 0) &&
            group[0].id in Ambiguous(group)
  {
    var group := [Record(1, 1, Some(0), Some(10), None, None), Record(2, 1, Some(5), Some(-3), None, None)];
    assert Reaches(group, 0, 1);
    CauseIsMarked(group, 0);
  }

  /** The forward hypothesis matters: a record tied with an inverted one that sorts before it is not
      marked, so its successor is still compared with it. */
  lemma InvertedTieIsForgotten(km: Numeral)
    requires Coefficient(km) >= 0
    ensures var r := Some(Finite(km));
            var group := [Record(1, 1, Some(0), Some(4), r, r), Record(2, 1, Some(5), Some(1), r, r),
                          Record(3, 1, Some(5), Some(8), r, r), Record(4, 1, Some(9), Some(10), r, r)];
            IsGroup(group) && AllKnown(group) && Clashes(group, 2) &&
            OdometerGap in SequenceCodes(group, 3, Options(None, None, true))
  {
    var r := Some(Finite(km));
    var group := [Record(1, 1, Some(0), Some(4), r, r), Record(2, 1, Some(5), Some(1), r, r),
                  Record(3, 1, Some(5), Some(8), r, r), Record(4, 1, Some(9), Some(10), r, r)];
    assert Clash(group[2], group[1]);
    assert Ambiguous(group) == {2} by {
      assert SweepTo(group, 1) == Sweep({}, Some(group[0]));
      assert SweepTo(group, 2) == Sweep({2}, Some(group[0]));
      assert SweepTo(group, 3) == Sweep({2}, Some(group[2]));
    }
    assert Latest(group, 3) == Some(group[2]) by {
      assert Latest(group, 1) == Some(group[0]);
      assert Latest(group, 2) == Some(group[0]);
    }
  }
}
