/** Texts, civil dates and legs of a trip as they are normalized before they are kept. */
module TripPlan {
  import opened Prelude
  import opened Text
  import opened Sorting

  // ----- required texts -----

  /** Every run of white space becomes one space. */
  function Collapse(s: Text): Text
    decreases |s|
  {
    if s == [] then []
    else if IsWhite(s[0]) then [SPACE] + Collapse(TrimStart(s[1..]))
    else [s[0]] + Collapse(s[1..])
  }

  function RequiredText(value: Text, maxLength: nat): Option<Text> {
    var normalized := Collapse(Trim(value));
    if normalized == [] || |normalized| > maxLength then None else Some(normalized)
  }

  /** Single spaces, and none at either end. */
  predicate Tidy(s: Text) {
    && (s != [] ==> !IsWhite(s[0]))
    && (forall i | 0 <= i < |s| && IsWhite(s[i]) :: s[i] == SPACE && i + 1 < |s| && !IsWhite(s[i + 1]))
  }

  lemma TidyAfter(c: CodeUnit, s: Text)
    requires !IsWhite(c) && s != [] && Tidy(s)
    ensures Tidy([c] + s) && Tidy([c] + ([SPACE] + s))
  {
    hide IsWhite;
    var t := [c] + ([SPACE] + s);
    forall i | 0 <= i < |t| && IsWhite(t[i]) ensures t[i] == SPACE && i + 1 < |t| && !IsWhite(t[i + 1]) {
      if i > 1 {
        assert IsWhite(s[i - 2]);
      } else {
        assert t[1 + 1] == s[0];
      }
    }
    forall i | 0 <= i < |[c] + s| && IsWhite(([c] + s)[i])
      ensures ([c] + s)[i] == SPACE && i + 1 < |[c] + s| && !IsWhite(([c] + s)[i + 1])
    {
      assert i > 0 && IsWhite(s[i - 1]);
    }
  }

  /** What is left to collapse after a run of white space. */
  lemma AfterWhite(s: Text) returns (t: Text)
    requires s != [] && IsWhite(s[0]) && !IsWhite(s[|s| - 1])
    ensures |t| < |s| && Ends(t) && t != [] && Collapse(s) == [SPACE] + Collapse(t)
  {
    hide IsWhite, TrimStart, Collapse;
    t := TrimStart(s[1..]);
    assert s[1..][..|s| - 1] == s[1..];
    CollapseStep(s);
  }

  /** No white space at either end. */
  predicate Ends(s: Text) {
    s != [] ==> !IsWhite(s[0]) && !IsWhite(s[|s| - 1])
  }

  lemma {:induction false} CollapseTidies(s: Text)
    requires Ends(s)
    ensures Tidy(Collapse(s)) && (s != [] ==> Collapse(s) != [] && Collapse(s)[0] == s[0])
    decreases |s|
  {
    hide IsWhite, IsBlank, Tidy, Collapse;
    CollapseStep(s);
    if s == [] {
      NothingIsTidy();
    } else {
      var c, rest := s[0], s[1..];
      if rest == [] {
        CollapseStep(rest);
        OneIsTidy(c);
      } else if IsWhite(rest[0]) {
        var t := AfterWhite(rest);
        CollapseTidies(t);
        TidyAfter(c, Collapse(t));
      } else {
        CollapseTidies(rest);
        TidyAfter(c, Collapse(rest));
      }
    }
  }

  lemma CollapseStep(s: Text)
    ensures s == [] ==> Collapse(s) == []
    ensures s != [] && IsWhite(s[0]) ==> Collapse(s) == [SPACE] + Collapse(TrimStart(s[1..]))
    ensures s != [] && !IsWhite(s[0]) ==> Collapse(s) == [s[0]] + Collapse(s[1..])
  {
  }

  lemma NothingIsTidy()
    ensures Tidy([])
  {
  }

  lemma OneIsTidy(c: CodeUnit)
    requires !IsWhite(c)
    ensures Tidy([c]) && Tidy([c] + [])
  {
    assert [c] + [] == [c];
  }

  lemma {:induction false} CollapseFixes(s: Text)
    requires Tidy(s)
    ensures Collapse(s) == s
    decreases |s|
  {
    if s != [] {
      var rest := s[1..];
      assert s == [s[0]] + rest;
      if rest != [] && IsWhite(rest[0]) {
        assert IsWhite(s[1]);
        assert !IsWhite(rest[1..][0]);
        assert Tidy(rest[1..]) by {
          assert forall i | 0 <= i < |rest[1..]| :: rest[1..][i] == s[i + 2];
        }
        CollapseFixes(rest[1..]);
        assert rest == [SPACE] + rest[1..];
      } else {
        assert Tidy(rest) by {
          assert forall i | 0 <= i < |rest| :: rest[i] == s[i + 1];
        }
        CollapseFixes(rest);
      }
    }
  }

  lemma {:induction false} VisibleCollapse(s: Text)
    ensures Visible(Collapse(s)) == Visible(s)
    decreases |s|
  {
    hide IsWhite, IsBlank, TrimStart, Collapse, Visible;
    CollapseStep(s);
    if s != [] {
      var head, rest := s[..1], s[1..];
      assert s == head + rest && head == [s[0]];
      VisibleAppend(head, rest);
      if IsWhite(s[0]) {
        var t := TrimStart(rest);
        VisibleAround(rest, |rest| - |t|, |rest|);
        VisibleCollapse(t);
        VisibleAppend([SPACE], Collapse(t));
        VisibleWhite(s[0]);
        VisibleWhite(SPACE);
      } else {
        VisibleCollapse(rest);
        VisibleAppend(head, Collapse(rest));
      }
    }
  }

  lemma VisibleWhite(c: CodeUnit)
    ensures IsWhite(c) ==> Visible([c]) == []
    ensures IsWhite(SPACE)
  {
  }

  lemma TidyIsKept(n: Text, maxLength: nat)
    requires Tidy(n) && 0 < |n| <= maxLength
    ensures RequiredText(n, maxLength) == Some(n)
  {
    hide IsWhite;
    CollapseFixes(n);
    assert !IsWhite(n[|n| - 1]);
    assert TrimStart(n) == n && TrimEnd(n) == n;
  }

  /** A text that is kept is tidy, has the visible characters it was given, and is kept as it is if it
      is given again. */
  lemma RequiredTextIsNormal(value: Text, maxLength: nat)
    ensures RequiredText(value, maxLength).Some? ==>
              var n := RequiredText(value, maxLength).value;
              && Tidy(n) && 0 < |n| <= maxLength && Visible(n) == Visible(value)
              && RequiredText(n, maxLength) == Some(n)
    ensures IsBlank(value) ==> RequiredText(value, maxLength).None?
  {
    hide IsWhite;
    var t := Trim(value);
    TrimEnds(value);
    CollapseTidies(t);
    VisibleTrim(value);
    VisibleCollapse(t);
    var n := Collapse(t);
    if 0 < |n| <= maxLength {
      TidyIsKept(n, maxLength);
    }
    if IsBlank(value) {
      VisibleBlank(value);
      assert t != [] ==> Visible(t) != [];
    }
  }

  // ----- civil dates -----

  function Number2(s: Text, at: nat): int
    requires at + 2 <= |s|
  {
    var tens: int, units: int := s[at], s[at + 1];
    (tens - 0x30) * 10 + (units - 0x30)
  }

  predicate IsLeapYear(year: int) {
    (year % 4 == 0 && year % 100 != 0) || year % 400 == 0
  }

  function DaysInMonth(year: int, month: int): int {
    if month == 2 then (if IsLeapYear(year) then 29 else 28)
    else if month in {4, 6, 9, 11} then 30
    else 31
  }

  /** A day of the calendar, written as year, month and day. */
  predicate IsCivilDate(s: Text) {
    && |s| == 10 && s[4] == MINUS && s[7] == MINUS
    && AllDigits(s[..4]) && AllDigits(s[5..7]) && AllDigits(s[8..])
    && var year, month := Number2(s, 0) * 100 + Number2(s, 2), Number2(s, 5);
    && 1 <= month <= 12 && 1 <= Number2(s, 8) <= DaysInMonth(year, month)
  }

  // ----- plans -----

  datatype Leg = Leg(id: Text, sequence: real, title: Text)

  datatype Plan = Plan(serviceDate: Option<Text>, legs: seq<Leg>)

  predicate IsWhole(x: real) {
    x.Floor as real == x
  }

  predicate GoodLeg(leg: Leg) {
    RequiredText(leg.id, 100).Some? && IsWhole(leg.sequence) && leg.sequence >= 1.0 && RequiredText(leg.title, 160).Some?
  }

  function NormalLeg(leg: Leg): Leg
    requires GoodLeg(leg)
  {
    Leg(RequiredText(leg.id, 100).value, leg.sequence, RequiredText(leg.title, 160).value)
  }

  function NormalLegs(legs: seq<Leg>): (r: seq<Leg>)
    requires forall i | 0 <= i < |legs| :: GoodLeg(legs[i])
    ensures |r| == |legs|
  {
    if legs == [] then [] else NormalLegs(legs[..|legs| - 1]) + [NormalLeg(legs[|legs| - 1])]
  }

  lemma {:induction false} NormalLegsAt(legs: seq<Leg>)
    requires forall i | 0 <= i < |legs| :: GoodLeg(legs[i])
    ensures forall i | 0 <= i < |legs| :: NormalLegs(legs)[i] == NormalLeg(legs[i])
  {
    hide GoodLeg, NormalLeg;
    if legs != [] {
      NormalLegsAt(legs[..|legs| - 1]);
    }
  }

  /** No two legs share an id or a place. */
  predicate Distinct(legs: seq<Leg>) {
    forall i, j | 0 <= i < j < |legs| :: legs[i].id != legs[j].id && legs[i].sequence != legs[j].sequence
  }

  predicate GoodPlan(plan: Plan) {
    && (plan.serviceDate.Some? ==> IsCivilDate(plan.serviceDate.value))
    && (forall i | 0 <= i < |plan.legs| :: GoodLeg(plan.legs[i]))
    && Distinct(NormalLegs(plan.legs))
  }

  predicate Earlier(a: Leg, b: Leg) {
    a.sequence < b.sequence
  }

  function NormalPlan(plan: Plan): Result<Plan> {
    if GoodPlan(plan) then Ok(Plan(plan.serviceDate, Sort(NormalLegs(plan.legs), Earlier))) else Err(ValidationError)
  }

  function Ids(legs: seq<Leg>): set<Text> {
    set leg | leg in legs :: leg.id
  }

  function Places(legs: seq<Leg>): set<real> {
    set leg | leg in legs :: leg.sequence
  }

  lemma AppendKeeps(legs: seq<Leg>, leg: Leg)
    requires Distinct(legs) && leg.id !in Ids(legs) && leg.sequence !in Places(legs)
    ensures Distinct(legs + [leg])
    ensures Ids(legs + [leg]) == Ids(legs) + {leg.id} && Places(legs + [leg]) == Places(legs) + {leg.sequence}
  {
    forall i | 0 <= i < |legs| ensures legs[i].id != leg.id && legs[i].sequence != leg.sequence {
      assert legs[i].id in Ids(legs) && legs[i].sequence in Places(legs);
    }
    var longer := legs + [leg];
    assert leg in longer && forall x :: x in longer <==> x in legs || x == leg;
    assert leg.id in Ids(longer) && leg.sequence in Places(longer);
  }

  /** The first `k` legs are good. */
  predicate GoodSoFar(plan: Plan, k: nat) {
    k <= |plan.legs| && forall i | 0 <= i < k :: GoodLeg(plan.legs[i])
  }

  lemma NormalLegsGrow(plan: Plan, k: nat)
    requires k < |plan.legs| && GoodSoFar(plan, k + 1)
    ensures NormalLegs(plan.legs[..k + 1]) == NormalLegs(plan.legs[..k]) + [NormalLeg(plan.legs[k])]
  {
    hide GoodLeg, NormalLeg;
    assert plan.legs[..k + 1][..k] == plan.legs[..k];
  }

  lemma ClashIsBad(plan: Plan, k: nat)
    requires k < |plan.legs| && GoodSoFar(plan, k) && RequiredText(plan.legs[k].id, 100).Some?
    requires RequiredText(plan.legs[k].id, 100).value in Ids(NormalLegs(plan.legs[..k])) ||
             plan.legs[k].sequence in Places(NormalLegs(plan.legs[..k]))
    ensures !GoodPlan(plan)
  {
    hide RequiredText, IsWhole, IsCivilDate, NormalLegs;
    var legs := NormalLegs(plan.legs[..k]);
    NormalLegsAt(plan.legs[..k]);
    var leg :| leg in legs && (RequiredText(plan.legs[k].id, 100).value == leg.id || plan.legs[k].sequence == leg.sequence);
    var i :| 0 <= i < k && legs[i] == leg;
    assert legs[i] == NormalLeg(plan.legs[..k][i]);
    if forall j | 0 <= j < |plan.legs| :: GoodLeg(plan.legs[j]) {
      NormalLegsAt(plan.legs);
    }
  }

  method NormalizePlan(plan: Plan) returns (r: Result<Plan>)
    ensures r == NormalPlan(plan)
  {
    hide RequiredText, IsWhole, IsCivilDate, Sort, Distinct, NormalLegs, Ids, Places;
    var ids: set<Text> := {};
    var sequences: set<real> := {};
    var legs: seq<Leg> := [];
    EmptyIsDistinct();
    assert plan.legs[..0] == [];
    for k := 0 to |plan.legs|
      invariant GoodSoFar(plan, k)
      invariant legs == NormalLegs(plan.legs[..k]) && Distinct(legs)
      invariant ids == Ids(legs) && sequences == Places(legs)
    {
      var leg := plan.legs[k];
      var id := RequiredText(leg.id, 100);
      if id.None? {
        return Err(ValidationError);
      }
      if id.value in ids {
        ClashIsBad(plan, k);
        return Err(ValidationError);
      }
      ids := ids + {id.value};
      if !IsWhole(leg.sequence) || leg.sequence < 1.0 {
        return Err(ValidationError);
      }
      if leg.sequence in sequences {
        ClashIsBad(plan, k);
        return Err(ValidationError);
      }
      sequences := sequences + {leg.sequence};
      var title := RequiredText(leg.title, 160);
      if title.None? {
        return Err(ValidationError);
      }
      NormalLegsGrow(plan, k);
      AppendKeeps(legs, Leg(id.value, leg.sequence, title.value));
      legs := legs + [Leg(id.value, leg.sequence, title.value)];
    }
    assert plan.legs[..|plan.legs|] == plan.legs;
    if plan.serviceDate.Some? && !IsCivilDate(plan.serviceDate.value) {
      return Err(ValidationError);
    }
    r := Ok(Plan(plan.serviceDate, Sort(legs, Earlier)));
  }

  lemma EmptyIsDistinct()
    ensures NormalLegs([]) == [] && Distinct([]) && Ids([]) == {} && Places([]) == {}
  {
  }

  // ----- what normalizing a plan achieves -----

  /** Strictly increasing places, no id twice, and every text tidy. */
  predicate Ordered(legs: seq<Leg>) {
    && (forall i, j | 0 <= i < j < |legs| :: legs[i].sequence < legs[j].sequence && legs[i].id != legs[j].id)
    && (forall i | 0 <= i < |legs| :: GoodLeg(legs[i]) && NormalLeg(legs[i]) == legs[i])
  }

  lemma EarlierIsStrict()
    ensures StrictOrder(Earlier)
  {
  }

  lemma NormalLegTwice(leg: Leg)
    requires GoodLeg(leg)
    ensures GoodLeg(NormalLeg(leg)) && NormalLeg(NormalLeg(leg)) == NormalLeg(leg)
  {
    hide RequiredText;
    RequiredTextIsNormal(leg.id, 100);
    RequiredTextIsNormal(leg.title, 160);
  }

  /** A plan that is kept lists its legs in strictly increasing order without repeated ids; they are the
      legs that were given, normalized; and giving the kept plan again keeps it as it is. */
  lemma NormalPlanIsOrdered(plan: Plan)
    requires NormalPlan(plan).Ok?
    ensures var kept := NormalPlan(plan).value;
            && Ordered(kept.legs)
            && multiset(kept.legs) == multiset(NormalLegs(plan.legs))
            && NormalPlan(kept) == Ok(kept)
  {
    hide GoodLeg, NormalLeg, IsCivilDate, NormalLegs, Sort;
    var legs := NormalLegs(plan.legs);
    var kept := NormalPlan(plan).value;
    NormalLegsAt(plan.legs);
    EarlierIsStrict();
    SortSorts(legs, Earlier);
    forall i | 0 <= i < |kept.legs| ensures GoodLeg(kept.legs[i]) && NormalLeg(kept.legs[i]) == kept.legs[i] {
      var k := SortedFrom(legs, Earlier, i);
      NormalLegTwice(plan.legs[k]);
    }
    forall i, j | 0 <= i < j < |kept.legs| ensures kept.legs[i].id != kept.legs[j].id {
      var a := SortedFrom(legs, Earlier, i);
      var b := SortedFrom(legs, Earlier, j);
      assert Earlier(kept.legs[i], kept.legs[j]);
    }
    NormalLegsAt(kept.legs);
    assert NormalLegs(kept.legs) == kept.legs;
    SortSorts(kept.legs, Earlier);
    forall x ensures x in Sort(kept.legs, Earlier) <==> x in kept.legs {
      assert x in multiset(Sort(kept.legs, Earlier)) <==> x in multiset(kept.legs);
    }
    SortedIsUnique(Sort(kept.legs, Earlier), kept.legs, Earlier);
  }

  lemma TwoPlaces<T>(s: seq<T>, x: T) returns (i: nat, j: nat)
    requires multiset(s)[x] >= 2
    ensures i < j < |s| && s[i] == x && s[j] == x
  {
    assert x in multiset(s);
    i :| 0 <= i < |s| && s[i] == x;
    assert s == s[..i] + [x] + s[i + 1..];
    assert x in multiset(s[..i]) || x in multiset(s[i + 1..]);
    if x in s[..i] {
      var k :| 0 <= k < i && s[k] == x;
      i, j := k, i;
    } else {
      var k :| 0 <= k < |s[i + 1..]| && s[i + 1..][k] == x;
      j := i + 1 + k;
    }
  }

  /** Two places of one sequence, carried over to a rearrangement of it. */
  lemma PlacesCarryOver<T>(a: seq<T>, b: seq<T>, i: nat, j: nat) returns (p: nat, q: nat)
    requires multiset(a) == multiset(b) && i < j < |b|
    ensures p < |a| && q < |a| && p != q && a[p] == b[i] && a[q] == b[j]
  {
    assert b[i] in multiset(a) && b[j] in multiset(a);
    if b[i] == b[j] {
      assert b == b[..j] + b[j..];
      assert b[..j][i] == b[i] && b[j..][0] == b[j];
      p, q := TwoPlaces(a, b[i]);
    } else {
      p :| 0 <= p < |a| && a[p] == b[i];
      q :| 0 <= q < |a| && a[q] == b[j];
    }
  }

  lemma ShuffledStaysGood(a: Plan, b: Plan)
    requires a.serviceDate == b.serviceDate && multiset(a.legs) == multiset(b.legs) && GoodPlan(a)
    ensures GoodPlan(b)
  {
    hide GoodLeg, NormalLeg, IsCivilDate, NormalLegs;
    forall i | 0 <= i < |b.legs| ensures GoodLeg(b.legs[i]) {
      assert b.legs[i] in multiset(a.legs);
    }
    NormalLegsAt(a.legs);
    NormalLegsAt(b.legs);
    forall i, j | 0 <= i < j < |b.legs|
      ensures NormalLegs(b.legs)[i].id != NormalLegs(b.legs)[j].id &&
              NormalLegs(b.legs)[i].sequence != NormalLegs(b.legs)[j].sequence
    {
      var p, q := PlacesCarryOver(a.legs, b.legs, i, j);
      assert NormalLegs(a.legs)[p] == NormalLegs(b.legs)[i] && NormalLegs(a.legs)[q] == NormalLegs(b.legs)[j];
    }
  }

  /** The order in which the legs are given does not matter: not for what is refused, nor for what is kept. */
  lemma LegOrderDoesNotMatter(a: Plan, b: Plan)
    requires a.serviceDate == b.serviceDate && multiset(a.legs) == multiset(b.legs)
    ensures NormalPlan(a) == NormalPlan(b)
  {
    hide GoodPlan, NormalLegs, Sort, NormalLeg, GoodLeg;
    if GoodPlan(a) || GoodPlan(b) {
      if GoodPlan(a) { ShuffledStaysGood(a, b); } else { ShuffledStaysGood(b, a); }
      SameLegs(a, b);
      SameLegs(b, a);
      NormalPlanIsOrdered(a);
      NormalPlanIsOrdered(b);
      var p, q := NormalPlan(a).value.legs, NormalPlan(b).value.legs;
      forall x ensures x in p <==> x in q {
        assert x in multiset(p) <==> x in multiset(q);
      }
      EarlierIsStrict();
      SortedIsUnique(p, q, Earlier);
    }
  }

  lemma SameLegs(a: Plan, b: Plan)
    requires GoodPlan(a) && GoodPlan(b) && multiset(a.legs) == multiset(b.legs)
    ensures forall x :: x in multiset(NormalLegs(a.legs)) ==> x in multiset(NormalLegs(b.legs))
  {
    hide GoodLeg, NormalLeg, IsCivilDate, NormalLegs, Distinct;
    NormalLegsAt(a.legs);
    NormalLegsAt(b.legs);
    forall i | 0 <= i < |a.legs| ensures NormalLegs(a.legs)[i] in NormalLegs(b.legs) {
      assert a.legs[i] in multiset(b.legs);
      var k :| 0 <= k < |b.legs| && b.legs[k] == a.legs[i];
      assert NormalLegs(b.legs)[k] == NormalLegs(a.legs)[i];
    }
  }
}
