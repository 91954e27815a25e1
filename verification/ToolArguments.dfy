/** `stableJson`: the canonical text behind tool-call fingerprints, and the authorization that
    compares fingerprints. */
module ToolArguments {
  import opened Prelude
  import opened Text
  import Json
  import Sorting

  /** A JavaScript number by what `String` prints for it; `NegativeZero` prints as `0`. */
  datatype JsNumber = NegativeZero | Printed(token: Text) | NonFinite

  /** A tool argument. The members of an object are in insertion order. `NotJson` stands for
      undefined, functions, symbols, bigints and objects with a foreign prototype. */
  datatype Argument =
    | Null
    | Bool(b: bool)
    | Number(n: JsNumber)
    | String(s: Text)
    | Array(items: seq<Argument>)
    | Object(members: seq<Property>)
    | NotJson

  datatype Property = Property(key: Text, value: Argument)

  function KeysOf(ms: seq<Property>): seq<Text> {
    seq(|ms|, i requires 0 <= i < |ms| => ms[i].key)
  }

  predicate DistinctKeys(ms: seq<Property>) {
    forall i, j | 0 <= i < j < |ms| :: ms[i].key != ms[j].key
  }

  /** What every JavaScript value satisfies: number texts are number tokens, keys are distinct. */
  predicate WellFormed(v: Argument) {
    match v
    case Number(Printed(token)) => Json.IsNumberToken(token)
    case Array(items) => forall i | 0 <= i < |items| :: WellFormed(items[i])
    case Object(members) =>
      DistinctKeys(members) && forall i | 0 <= i < |members| :: WellFormed(members[i].value)
    case _ => true
  }

  // ----- Object.keys(record).sort() -----

  predicate KeyBefore(a: Property, b: Property) {
    Less(a.key, b.key)
  }

  function SortByKey(ms: seq<Property>): (r: seq<Property>)
    ensures multiset(r) == multiset(ms)
  {
    Sorting.Sort(ms, KeyBefore)
  }

  lemma LessIsStrict()
    ensures Sorting.StrictOrder(Less) && Sorting.StrictOrder(KeyBefore)
  {
    forall a, b, c ensures !Less(a, a) && (Less(a, b) && Less(b, c) ==> Less(a, c)) {
      LessTrichotomy(a, a);
      if Less(a, b) && Less(b, c) {
        LessTransitive(a, b, c);
      }
    }
  }

  lemma SortByKeySorts(ms: seq<Property>)
    requires DistinctKeys(ms)
    ensures Sorting.Sorted(SortByKey(ms), KeyBefore)
  {
    LessIsStrict();
    forall i, j | 0 <= i < j < |ms| ensures Less(ms[i].key, ms[j].key) || Less(ms[j].key, ms[i].key) {
      LessTrichotomy(ms[i].key, ms[j].key);
    }
    Sorting.SortSorts(ms, KeyBefore);
  }

  lemma SortedFrom(ms: seq<Property>, k: nat) returns (i: nat)
    requires k < |SortByKey(ms)|
    ensures i < |ms| && ms[i] == SortByKey(ms)[k]
  {
    i := Sorting.SortedFrom(ms, KeyBefore, k);
  }

  lemma SortedTo(ms: seq<Property>, i: nat) returns (k: nat)
    requires i < |ms|
    ensures k < |SortByKey(ms)| && SortByKey(ms)[k] == ms[i]
  {
    k := Sorting.SortedTo(ms, KeyBefore, i);
  }

  // ----- the serializer -----

  /** The text, or `None` where the source throws. */
  function StableJson(v: Argument): Option<Text>
    decreases v, 1, 0
  {
    match v
    case Null => Some(Json.NULL)
    case Bool(b) => Some(if b then Json.TRUE else Json.FALSE)
    case String(s) => Some(Json.Quote(s))
    case Number(NegativeZero) => Some([ZERO])
    case Number(Printed(token)) => Some(token)
    case Number(NonFinite) => None
    case NotJson => None
    case Array(items) => Bracket(Json.OPEN_ARRAY, StableItems(items, v), Json.CLOSE_ARRAY)
    case Object(members) =>
      var sorted := SortByKey(members);
      assert forall i | 0 <= i < |sorted| :: sorted[i].value < v by { SortedIsBelow(members); }
      Bracket(Json.OPEN_OBJECT, StableMembers(sorted, v), Json.CLOSE_OBJECT)
  }

  lemma SortedIsBelow(members: seq<Property>)
    ensures forall i | 0 <= i < |SortByKey(members)| :: SortByKey(members)[i].value < Object(members)
  {
    forall k | 0 <= k < |SortByKey(members)| ensures SortByKey(members)[k].value < Object(members) {
      var i := SortedFrom(members, k);
      assert members[i].value < Object(members);
    }
  }

  function Bracket(open: CodeUnit, inner: Option<Text>, close: CodeUnit): Option<Text> {
    match inner case None => None case Some(t) => Some([open] + t + [close])
  }

  function StableItems(items: seq<Argument>, ghost whole: Argument): Option<Text>
    requires forall i | 0 <= i < |items| :: items[i] < whole
    decreases whole, 0, |items|
  {
    if items == [] then Some([])
    else
      match StableJson(items[0])
      case None => None
      case Some(t) =>
        if |items| == 1 then Some(t)
        else match StableItems(items[1..], whole) case None => None case Some(u) => Some(t + ([COMMA] + u))
  }

  function StableMembers(ms: seq<Property>, ghost whole: Argument): Option<Text>
    requires forall i | 0 <= i < |ms| :: ms[i].value < whole
    decreases whole, 0, |ms|
  {
    if ms == [] then Some([])
    else
      match StableJson(ms[0].value)
      case None => None
      case Some(value) =>
        var t := Json.Quote(ms[0].key) + ([COLON] + value);
        if |ms| == 1 then Some(t)
        else match StableMembers(ms[1..], whole) case None => None case Some(u) => Some(t + ([COMMA] + u))
  }

  // ----- what the text means -----

  function NumberText(n: JsNumber): Text {
    match n case NegativeZero => [ZERO] case Printed(token) => token case NonFinite => []
  }

  /** The tree the text spells: members in key order. */
  function Canon(v: Argument): Json.Json
    decreases v
  {
    match v
    case Null | NotJson => Json.Null
    case Bool(b) => Json.Bool(b)
    case String(s) => Json.String(s)
    case Number(n) => Json.Number(NumberText(n))
    case Array(items) => Json.Array(seq(|items|, i requires 0 <= i < |items| => Canon(items[i])))
    case Object(members) =>
      var sorted := SortByKey(members);
      assert forall i | 0 <= i < |sorted| :: sorted[i].value < v by { SortedIsBelow(members); }
      Json.Object(seq(|sorted|, i requires 0 <= i < |sorted| =>
        Json.Member(sorted[i].key, false, Canon(sorted[i].value))))
  }

  predicate IsZero(n: JsNumber) {
    n == NegativeZero || n == Printed([ZERO])
  }

  /** Equal arguments: the order of an object's members does not matter, and -0 is 0. */
  ghost predicate Same(a: Argument, b: Argument)
    decreases a
  {
    match (a, b)
    case (Number(m), Number(n)) => m == n || (IsZero(m) && IsZero(n))
    case (Array(xs), Array(ys)) => |xs| == |ys| && forall i | 0 <= i < |xs| :: Same(xs[i], ys[i])
    case (Object(xs), Object(ys)) =>
      && (forall k :: k in KeysOf(xs) <==> k in KeysOf(ys))
      && forall i, j | 0 <= i < |xs| && 0 <= j < |ys| && xs[i].key == ys[j].key :: Same(xs[i].value, ys[j].value)
    case _ => a == b
  }

  // ----- reading the text back -----

  /** What may follow a value: nothing that would prolong a number. */
  predicate Delimited(rest: Text) {
    rest == [] || !Json.IsNumberUnit(rest[0])
  }

  lemma {:induction false} DigitRunStops(s: Text, rest: Text)
    requires Delimited(rest)
    ensures DigitRun(s + rest) == DigitRun(s)
  {
    if s == [] {
      assert s + rest == rest;
    } else if IsDigit(s[0]) {
      assert (s + rest)[1..] == s[1..] + rest;
      DigitRunStops(s[1..], rest);
    }
  }

  lemma FractionStops(s: Text, rest: Text)
    requires Delimited(rest)
    ensures Json.FractionLength(s + rest) == Json.FractionLength(s)
  {
    if s == [] {
      assert s + rest == rest;
    } else {
      assert (s + rest)[1..] == s[1..] + rest;
      DigitRunStops(s[1..], rest);
    }
  }

  lemma ExponentStops(s: Text, rest: Text)
    requires Delimited(rest)
    ensures Json.ExponentLength(s + rest) == Json.ExponentLength(s)
  {
    if s == [] {
      assert s + rest == rest;
    } else {
      var skip := if |s| > 1 && (s[1] == PLUS || s[1] == MINUS) then 2 else 1;
      assert (s + rest)[skip..] == s[skip..] + rest;
      DigitRunStops(s[skip..], rest);
    }
  }

  lemma WholeStops(s: Text, rest: Text)
    requires Delimited(rest)
    ensures Json.WholeLength(s + rest) == Json.WholeLength(s)
  {
    var sign := if s != [] && s[0] == MINUS then 1 else 0;
    assert (s + rest)[sign..] == s[sign..] + rest;
    DigitRunStops(s[sign..], rest);
  }

  /** A number token is not prolonged by what follows it. */
  lemma NumberStops(s: Text, rest: Text)
    requires Json.IsNumberToken(s) && Delimited(rest)
    ensures Json.NumberLength(s + rest) == Some(|s|)
  {
    hide Json.WholeLength, Json.FractionLength, Json.ExponentLength;
    WholeStops(s, rest);
    var whole := Json.WholeLength(s);
    assert (s + rest)[whole..] == s[whole..] + rest;
    FractionStops(s[whole..], rest);
    var fraction := Json.FractionLength(s[whole..]);
    assert (s + rest)[whole + fraction..] == s[whole + fraction..] + rest;
    ExponentStops(s[whole + fraction..], rest);
  }

  lemma NumberReads(token: Text, rest: Text)
    requires Json.IsNumberToken(token) && Delimited(rest)
    ensures Json.Value(token + rest, false) == Some((Json.Number(token), rest))
  {
    hide Json.WholeLength, Json.FractionLength, Json.ExponentLength, Json.ReadBody, Json.Word, Json.Members, Json.Items;
    NumberStops(token, rest);
    assert (token + rest)[..|token|] == token && (token + rest)[|token|..] == rest;
    assert Json.StartsNumber((token + rest)[0]);
  }

  lemma StringReads(s: Text, rest: Text)
    ensures Json.Value(Json.Quote(s) + rest, false) == Some((Json.String(s), rest))
    ensures Json.Key(Json.Quote(s) + rest, false) == Some((s, false, rest))
  {
    Json.QuoteRoundTrip(s, rest);
  }

  lemma {:induction false} WordReads(word: Text, rest: Text)
    ensures Json.After(word, word + rest) == Some(rest)
  {
    if word == [] {
      assert word + rest == rest;
    } else {
      assert (word + rest)[1..] == word[1..] + rest;
      WordReads(word[1..], rest);
    }
  }

  lemma KeywordReads(c: CodeUnit, rest: Text)
    requires c in {0x74, 0x66, 0x6E}
    ensures c == 0x74 ==> Json.Value(Json.TRUE + rest, false) == Some((Json.Bool(true), rest))
    ensures c == 0x66 ==> Json.Value(Json.FALSE + rest, false) == Some((Json.Bool(false), rest))
    ensures c == 0x6E ==> Json.Value(Json.NULL + rest, false) == Some((Json.Null, rest))
  {
    hide Json.After, Json.Members, Json.Items, Json.NumberLength, Json.ReadBody;
    WordReads(if c == 0x74 then Json.TRUE else if c == 0x66 then Json.FALSE else Json.NULL, rest);
  }

  lemma ZeroIsNumber()
    ensures Json.IsNumberToken([ZERO])
  {
    assert DigitRun([ZERO]) == 1;
  }

  /** A printed value starts with a visible code unit that closes nothing. */
  predicate StartsValue(t: Text) {
    t != [] && !Json.IsSpace(t[0]) && t[0] != Json.CLOSE_ARRAY && t[0] != Json.CLOSE_OBJECT
  }

  lemma PrintedStart(v: Argument)
    requires StableJson(v).Some? && WellFormed(v)
    ensures StartsValue(StableJson(v).value)
  {
  }

  /** Reading the canonical text gives the canonical tree, and stops where the text ends. */
  lemma {:induction false} TextReads(v: Argument, rest: Text)
    requires WellFormed(v) && StableJson(v).Some? && Delimited(rest)
    ensures Json.Value(StableJson(v).value + rest, false) == Some((Canon(v), rest))
    decreases v, 1, 0
  {
    hide Json.Value;
    match v
    case Null => KeywordReads(0x6E, rest);
    case Bool(b) => KeywordReads(if b then 0x74 else 0x66, rest);
    case String(s) => StringReads(s, rest);
    case Number(n) =>
      hide Json.NumberLength;
      ZeroIsNumber();
      NumberReads(NumberText(n), rest);
    case Array(items) => ArrayReads(items, v, rest);
    case Object(members) => ObjectReads(members, v, rest);
  }

  lemma {:induction false} ArrayReads(items: seq<Argument>, whole: Argument, rest: Text)
    requires whole == Array(items) && WellFormed(whole) && StableJson(whole).Some?
    ensures Json.Value(StableJson(whole).value + rest, false) == Some((Canon(whole), rest))
    decreases whole, 0, |items| + 1
  {
    hide Json.Value, Json.Items;
    var inner := StableItems(items, whole).value;
    var close := [Json.CLOSE_ARRAY] + rest;
    BracketAppend(Json.OPEN_ARRAY, inner, Json.CLOSE_ARRAY, rest);
    ArrayOpens(inner + close);
    assert Canon(whole) == Json.Array(CanonItems(items));
    if items == [] {
      assert inner == [] && inner + close == close && close[1..] == rest;
      assert CanonItems(items) == [];
    } else {
      ItemsRead(items, whole, rest);
      PrintedStart(items[0]);
      ItemsStart(items, whole);
    }
  }

  lemma BracketAppend(open: CodeUnit, inner: Text, close: CodeUnit, rest: Text)
    ensures [open] + inner + [close] + rest == [open] + (inner + ([close] + rest))
    ensures ([open] + inner + [close] + rest)[1..] == inner + ([close] + rest)
  {
  }

  lemma ItemsStart(items: seq<Argument>, whole: Argument)
    requires items != [] && forall i | 0 <= i < |items| :: items[i] < whole
    requires StableItems(items, whole).Some? && StartsValue(StableJson(items[0]).value)
    ensures StartsValue(StableItems(items, whole).value)
  {
  }

  function CanonItems(items: seq<Argument>): seq<Json.Json> {
    seq(|items|, i requires 0 <= i < |items| => Canon(items[i]))
  }

  lemma {:induction false} ItemsRead(items: seq<Argument>, whole: Argument, rest: Text)
    requires items != [] && forall i | 0 <= i < |items| :: items[i] < whole && WellFormed(items[i])
    requires StableItems(items, whole).Some?
    ensures Json.Items(StableItems(items, whole).value + ([Json.CLOSE_ARRAY] + rest), false) ==
            Some((CanonItems(items), rest))
    decreases whole, 0, |items|
  {
    hide Json.Value, Canon, WellFormed;
    var t := StableJson(items[0]).value;
    var close := [Json.CLOSE_ARRAY] + rest;
    assert close[1..] == rest;
    if |items| == 1 {
      TextReads(items[0], close);
      assert CanonItems(items) == [Canon(items[0])];
    } else {
      var u := StableItems(items[1..], whole).value;
      var more := [COMMA] + (u + close);
      assert t + ([COMMA] + u) + close == t + more && more[1..] == u + close;
      TextReads(items[0], more);
      ItemsRead(items[1..], whole, rest);
      assert CanonItems(items) == [Canon(items[0])] + CanonItems(items[1..]);
    }
  }

  function CanonMembers(ms: seq<Property>): seq<Json.Member> {
    seq(|ms|, i requires 0 <= i < |ms| => Json.Member(ms[i].key, false, Canon(ms[i].value)))
  }

  lemma ObjectOpens(u: Text)
    ensures StartsValue(u) ==>
              Json.Value([Json.OPEN_OBJECT] + u, false) ==
              match Json.Members(u, false) case None => None case Some((ms, rest)) => Some((Json.Object(ms), rest))
    ensures u != [] && u[0] == Json.CLOSE_OBJECT ==>
              Json.Value([Json.OPEN_OBJECT] + u, false) == Some((Json.Object([]), u[1..]))
  {
    hide Json.Members, Json.Items;
    assert ([Json.OPEN_OBJECT] + u)[1..] == u;
  }

  lemma ArrayOpens(u: Text)
    ensures StartsValue(u) ==>
              Json.Value([Json.OPEN_ARRAY] + u, false) ==
              match Json.Items(u, false) case None => None case Some((vs, rest)) => Some((Json.Array(vs), rest))
    ensures u != [] && u[0] == Json.CLOSE_ARRAY ==>
              Json.Value([Json.OPEN_ARRAY] + u, false) == Some((Json.Array([]), u[1..]))
  {
    hide Json.Members, Json.Items;
    assert ([Json.OPEN_ARRAY] + u)[1..] == u;
  }

  lemma {:induction false} ObjectReads(members: seq<Property>, whole: Argument, rest: Text)
    requires whole == Object(members) && WellFormed(whole) && StableJson(whole).Some?
    ensures Json.Value(StableJson(whole).value + rest, false) == Some((Canon(whole), rest))
    decreases whole, 0, |SortByKey(members)| + 1
  {
    hide Json.Value, Json.Members;
    var sorted := SortByKey(members);
    SortedIsBelow(members);
    var inner := StableMembers(sorted, whole).value;
    var close := [Json.CLOSE_OBJECT] + rest;
    BracketAppend(Json.OPEN_OBJECT, inner, Json.CLOSE_OBJECT, rest);
    ObjectOpens(inner + close);
    assert Canon(whole) == Json.Object(CanonMembers(sorted));
    if sorted == [] {
      assert inner == [] && inner + close == close && close[1..] == rest;
      assert CanonMembers(sorted) == [];
    } else {
      SortedWellFormed(members);
      MembersRead(sorted, whole, rest);
      MembersStart(sorted, whole);
    }
  }

  lemma MembersStart(ms: seq<Property>, whole: Argument)
    requires ms != [] && forall i | 0 <= i < |ms| :: ms[i].value < whole
    requires StableMembers(ms, whole).Some?
    ensures StartsValue(StableMembers(ms, whole).value)
  {
  }

  lemma SortedWellFormed(members: seq<Property>)
    requires WellFormed(Object(members))
    ensures forall k | 0 <= k < |SortByKey(members)| :: WellFormed(SortByKey(members)[k].value)
  {
    forall k | 0 <= k < |SortByKey(members)| ensures WellFormed(SortByKey(members)[k].value) {
      var i := SortedFrom(members, k);
    }
  }

  lemma {:induction false} MembersRead(ms: seq<Property>, whole: Argument, rest: Text)
    requires ms != [] && forall i | 0 <= i < |ms| :: ms[i].value < whole && WellFormed(ms[i].value)
    requires StableMembers(ms, whole).Some?
    ensures Json.Members(StableMembers(ms, whole).value + ([Json.CLOSE_OBJECT] + rest), false) ==
            Some((CanonMembers(ms), rest))
    decreases whole, 0, |ms|
  {
    hide Json.Value, Json.Key, Canon, WellFormed, Json.Quote;
    var key, value := ms[0].key, StableJson(ms[0].value).value;
    var close := [Json.CLOSE_OBJECT] + rest;
    assert close[1..] == rest;
    if |ms| == 1 {
      MemberAppend(key, value, close);
      StringReads(key, [COLON] + (value + close));
      TextReads(ms[0].value, close);
      assert CanonMembers(ms) == [Json.Member(key, false, Canon(ms[0].value))];
    } else {
      var u := StableMembers(ms[1..], whole).value;
      var more := [COMMA] + (u + close);
      assert more[1..] == u + close;
      MemberAppend(key, value, more);
      assert StableMembers(ms, whole).value + close == Json.Quote(key) + ([COLON] + value) + more;
      StringReads(key, [COLON] + (value + more));
      TextReads(ms[0].value, more);
      MembersRead(ms[1..], whole, rest);
      assert CanonMembers(ms) == [Json.Member(key, false, Canon(ms[0].value))] + CanonMembers(ms[1..]);
    }
  }

  lemma MemberAppend(key: Text, value: Text, rest: Text)
    ensures Json.Quote(key) + ([COLON] + value) + rest == Json.Quote(key) + ([COLON] + (value + rest))
    ensures ([COLON] + (value + rest))[1..] == value + rest
  {
  }

  /** The text is valid JSON and spells the canonical tree. */
  lemma TextIsJson(v: Argument)
    requires WellFormed(v) && StableJson(v).Some?
    ensures Json.Parse(StableJson(v).value, false) == Some(Canon(v))
  {
    hide Json.Value, StableJson, Canon;
    TextReads(v, []);
    assert StableJson(v).value + [] == StableJson(v).value;
  }

  // ----- canonical trees and equal arguments -----

  lemma {:induction false} SameHasSameText(a: Argument, b: Argument)
    requires WellFormed(a) && WellFormed(b) && Same(a, b)
    ensures StableJson(a) == StableJson(b)
    decreases a, 1
  {
    match (a, b)
    case (Array(xs), Array(ys)) =>
      forall i | 0 <= i < |xs| ensures StableJson(xs[i]) == StableJson(ys[i]) {
        hide StableJson;
        SameHasSameText(xs[i], ys[i]);
      }
      SameItemTexts(xs, ys, a, b);
    case (Object(xs), Object(ys)) => SameObjectText(xs, ys);
    case _ =>
  }

  lemma {:induction false} SameObjectText(xs: seq<Property>, ys: seq<Property>)
    requires WellFormed(Object(xs)) && WellFormed(Object(ys)) && Same(Object(xs), Object(ys))
    ensures StableJson(Object(xs)) == StableJson(Object(ys))
    decreases Object(xs), 0
  {
    hide SortByKey;
    var p, q := SortByKey(xs), SortByKey(ys);
    SortedIsBelow(xs);
    SortedIsBelow(ys);
    SameKeysSorted(xs, ys);
    assert |p| == |KeysOf(p)| == |KeysOf(q)| == |q|;
    forall k | 0 <= k < |p| ensures p[k].key == q[k].key && StableJson(p[k].value) == StableJson(q[k].value) {
      hide StableJson;
      var i := SortedFrom(xs, k);
      var j := SortedFrom(ys, k);
      assert KeysOf(p)[k] == KeysOf(q)[k];
      SameHasSameText(xs[i].value, ys[j].value);
    }
    SameMemberTexts(p, q, Object(xs), Object(ys));
  }

  lemma {:induction false} SameItemTexts(xs: seq<Argument>, ys: seq<Argument>, a: Argument, b: Argument)
    requires |xs| == |ys| && forall i | 0 <= i < |xs| :: xs[i] < a && ys[i] < b && StableJson(xs[i]) == StableJson(ys[i])
    ensures StableItems(xs, a) == StableItems(ys, b)
  {
    if xs != [] {
      SameItemTexts(xs[1..], ys[1..], a, b);
    }
  }

  lemma {:induction false} SameMemberTexts(p: seq<Property>, q: seq<Property>, a: Argument, b: Argument)
    requires |p| == |q| && forall i | 0 <= i < |p| :: p[i].value < a && q[i].value < b
    requires forall i | 0 <= i < |p| :: p[i].key == q[i].key && StableJson(p[i].value) == StableJson(q[i].value)
    ensures StableMembers(p, a) == StableMembers(q, b)
  {
    if p != [] {
      SameMemberTexts(p[1..], q[1..], a, b);
    }
  }

  lemma SortedKeys(xs: seq<Property>, k: Text)
    ensures k in KeysOf(SortByKey(xs)) <==> k in KeysOf(xs)
  {
    if k in KeysOf(SortByKey(xs)) {
      var n :| 0 <= n < |SortByKey(xs)| && KeysOf(SortByKey(xs))[n] == k;
      var i := SortedFrom(xs, n);
      assert KeysOf(xs)[i] == k;
    }
    if k in KeysOf(xs) {
      var i :| 0 <= i < |xs| && KeysOf(xs)[i] == k;
      var n := SortedTo(xs, i);
      assert KeysOf(SortByKey(xs))[n] == k;
    }
  }

  lemma SameKeysSorted(xs: seq<Property>, ys: seq<Property>)
    requires DistinctKeys(xs) && DistinctKeys(ys) && forall k :: k in KeysOf(xs) <==> k in KeysOf(ys)
    ensures KeysOf(SortByKey(xs)) == KeysOf(SortByKey(ys))
  {
    SortByKeySorts(xs);
    SortByKeySorts(ys);
    forall k ensures k in KeysOf(SortByKey(xs)) <==> k in KeysOf(SortByKey(ys)) {
      SortedKeys(xs, k);
      SortedKeys(ys, k);
    }
    LessIsStrict();
    Sorting.SortedIsUnique(KeysOf(SortByKey(xs)), KeysOf(SortByKey(ys)), Less);
  }

  /** Everything in the value has a JSON text. */
  predicate IsJson(v: Argument) {
    match v
    case Number(n) => n != NonFinite
    case NotJson => false
    case Array(items) => forall i | 0 <= i < |items| :: IsJson(items[i])
    case Object(members) => forall i | 0 <= i < |members| :: IsJson(members[i].value)
    case _ => true
  }

  lemma {:induction false} SameCanonIsSame(a: Argument, b: Argument)
    requires WellFormed(a) && WellFormed(b) && IsJson(a) && IsJson(b) && Canon(a) == Canon(b)
    ensures Same(a, b)
    decreases a
  {
    match (a, b)
    case (Array(xs), Array(ys)) =>
      assert Canon(a) == Json.Array(CanonItems(xs)) && Canon(b) == Json.Array(CanonItems(ys));
      forall i | 0 <= i < |xs| ensures Same(xs[i], ys[i]) {
        assert CanonItems(xs)[i] == CanonItems(ys)[i];
        SameCanonIsSame(xs[i], ys[i]);
      }
    case (Object(xs), Object(ys)) =>
      var p, q := SortByKey(xs), SortByKey(ys);
      assert Canon(a) == Json.Object(CanonMembers(p)) && Canon(b) == Json.Object(CanonMembers(q));
      CanonKeys(xs, ys);
      forall i, j | 0 <= i < |xs| && 0 <= j < |ys| && xs[i].key == ys[j].key ensures Same(xs[i].value, ys[j].value) {
        CanonValues(xs, ys, i, j);
        SameCanonIsSame(xs[i].value, ys[j].value);
      }
    case (Number(m), Number(n)) =>
    case _ =>
  }

  lemma CanonKeys(xs: seq<Property>, ys: seq<Property>)
    requires CanonMembers(SortByKey(xs)) == CanonMembers(SortByKey(ys))
    ensures forall k :: k in KeysOf(xs) <==> k in KeysOf(ys)
  {
    var p, q := SortByKey(xs), SortByKey(ys);
    assert |p| == |CanonMembers(p)| == |CanonMembers(q)| == |q|;
    forall n | 0 <= n < |p| ensures p[n].key == q[n].key {
      assert CanonMembers(p)[n].key == CanonMembers(q)[n].key;
    }
    assert KeysOf(p) == KeysOf(q);
    forall k ensures k in KeysOf(xs) <==> k in KeysOf(ys) {
      SortedKeys(xs, k);
      SortedKeys(ys, k);
    }
  }

  lemma CanonValues(xs: seq<Property>, ys: seq<Property>, i: nat, j: nat)
    requires DistinctKeys(xs) && DistinctKeys(ys) && CanonMembers(SortByKey(xs)) == CanonMembers(SortByKey(ys))
    requires i < |xs| && j < |ys| && xs[i].key == ys[j].key
    ensures Canon(xs[i].value) == Canon(ys[j].value)
  {
    var p, q := SortByKey(xs), SortByKey(ys);
    var m := SortedTo(xs, i);
    var n := SortedTo(ys, j);
    SortByKeySorts(xs);
    assert CanonMembers(p)[m] == CanonMembers(q)[m];
    assert CanonMembers(p)[n] == CanonMembers(q)[n];
    assert p[n].key == q[n].key == p[m].key;
    LessTrichotomy(p[m].key, p[n].key);
    assert m == n;
  }

  // ----- the main results -----

  lemma {:induction false} StableJsonAccepts(v: Argument)
    ensures StableJson(v).Some? <==> IsJson(v)
    decreases v, 1
  {
    match v
    case Array(items) => StableItemsAccept(items, v);
    case Object(members) =>
      SortedIsBelow(members);
      StableMembersAccept(SortByKey(members), v);
      if forall k | 0 <= k < |SortByKey(members)| :: IsJson(SortByKey(members)[k].value) {
        forall i | 0 <= i < |members| ensures IsJson(members[i].value) {
          var k := SortedTo(members, i);
        }
      } else {
        var k :| 0 <= k < |SortByKey(members)| && !IsJson(SortByKey(members)[k].value);
        var i := SortedFrom(members, k);
      }
    case _ =>
  }

  lemma {:induction false} StableItemsAccept(items: seq<Argument>, whole: Argument)
    requires forall i | 0 <= i < |items| :: items[i] < whole
    ensures StableItems(items, whole).Some? <==> forall i | 0 <= i < |items| :: IsJson(items[i])
    decreases whole, 0, |items|
  {
    if items != [] {
      StableJsonAccepts(items[0]);
      StableItemsAccept(items[1..], whole);
      assert forall i | 0 < i < |items| :: items[i] == items[1..][i - 1];
    }
  }

  lemma {:induction false} StableMembersAccept(ms: seq<Property>, whole: Argument)
    requires forall i | 0 <= i < |ms| :: ms[i].value < whole
    ensures StableMembers(ms, whole).Some? <==> forall i | 0 <= i < |ms| :: IsJson(ms[i].value)
    decreases whole, 0, |ms|
  {
    if ms != [] {
      StableJsonAccepts(ms[0].value);
      StableMembersAccept(ms[1..], whole);
      assert forall i | 0 < i < |ms| :: ms[i] == ms[1..][i - 1];
    }
  }

  /** Two serializable arguments have the same text if and only if they are equal up to the order of
      object members, with -0 read as 0. */
  lemma TextsMatchExactly(a: Argument, b: Argument)
    requires WellFormed(a) && WellFormed(b) && IsJson(a) && IsJson(b)
    ensures StableJson(a).Some? && StableJson(b).Some?
    ensures StableJson(a) == StableJson(b) <==> Same(a, b)
  {
    StableJsonAccepts(a);
    StableJsonAccepts(b);
    if Same(a, b) {
      SameHasSameText(a, b);
    }
    if StableJson(a) == StableJson(b) {
      TextIsJson(a);
      TextIsJson(b);
      SameCanonIsSame(a, b);
    }
  }
}
