/** JSON text (RFC 8259): the string printer `JSON.stringify` uses, and a reference reader.
    A number is kept as the text of its token. */
module Json {
  import opened Prelude
  import opened Text

  datatype Json =
    | Null
    | Bool(b: bool)
    | Number(token: Text)
    | String(text: Text)
    | Array(items: seq<Json>)
    | Object(members: seq<Member>)

  /** One member of an object, in source order. `bare` marks a key written as a number token,
      which RFC 8259 does not allow and only the lax reading below accepts. */
  datatype Member = Member(key: Text, bare: bool, value: Json)

  // ----- strings (RFC 8259, section 7) -----

  predicate IsHigh(c: CodeUnit) {
    0xD800 <= c < 0xDC00
  }

  predicate IsLow(c: CodeUnit) {
    0xDC00 <= c < 0xE000
  }

  function HexDigit(d: int): CodeUnit
    requires 0 <= d < 16
  {
    if d < 10 then 0x30 + d else 0x57 + d
  }

  function HexValue(c: CodeUnit): Option<int> {
    if 0x30 <= c <= 0x39 then Some(c - 0x30)
    else if 0x61 <= c <= 0x66 then Some(c - 0x57)
    else if 0x41 <= c <= 0x46 then Some(c - 0x37)
    else None
  }

  function UnicodeEscape(c: CodeUnit): Text {
    [BACKSLASH, 0x75, HexDigit(c / 4096), HexDigit(c / 256 % 16), HexDigit(c / 16 % 16), HexDigit(c % 16)]
  }

  /** One code unit that is not part of a surrogate pair, as `JSON.stringify` writes it. */
  function EscapeUnit(c: CodeUnit): Text {
    if c == QUOTE || c == BACKSLASH then [BACKSLASH, c]
    else if c == 0x08 then [BACKSLASH, 0x62]
    else if c == TAB then [BACKSLASH, 0x74]
    else if c == LF then [BACKSLASH, 0x6E]
    else if c == 0x0C then [BACKSLASH, 0x66]
    else if c == CR then [BACKSLASH, 0x72]
    else if c < SPACE || IsHigh(c) || IsLow(c) then UnicodeEscape(c)
    else [c]
  }

  function QuoteBody(s: Text): Text {
    if s == [] then []
    else if |s| >= 2 && IsHigh(s[0]) && IsLow(s[1]) then [s[0], s[1]] + QuoteBody(s[2..])
    else EscapeUnit(s[0]) + QuoteBody(s[1..])
  }

  /** `JSON.stringify` of a string. */
  function Quote(s: Text): Text {
    [QUOTE] + QuoteBody(s) + [QUOTE]
  }

  /** What `\c` stands for, for the one-letter escapes. */
  function SimpleEscape(c: CodeUnit): Option<CodeUnit> {
    if c == QUOTE || c == BACKSLASH || c == 0x2F then Some(c)
    else if c == 0x62 then Some(0x08)
    else if c == 0x66 then Some(0x0C)
    else if c == 0x6E then Some(LF)
    else if c == 0x72 then Some(CR)
    else if c == 0x74 then Some(TAB)
    else None
  }

  function HexFour(s: Text): Option<CodeUnit>
    requires |s| >= 4
  {
    match (HexValue(s[0]), HexValue(s[1]), HexValue(s[2]), HexValue(s[3]))
    case (Some(a), Some(b), Some(c), Some(d)) =>
      var v := a * 4096 + b * 256 + c * 16 + d;
      if 0 <= v < 0x10000 then Some(v) else None
    case _ => None
  }

  function Prepend(c: CodeUnit, r: Option<(Text, Text)>): Option<(Text, Text)> {
    match r case None => None case Some((s, rest)) => Some(([c] + s, rest))
  }

  /** Reads a string after its opening quote: the decoded contents and what follows the closing quote. */
  function ReadBody(s: Text): (r: Option<(Text, Text)>)
    ensures r.Some? ==> |r.value.1| < |s|
  {
    if s == [] then None
    else if s[0] == QUOTE then Some(([], s[1..]))
    else if s[0] == BACKSLASH then
      if |s| < 2 then None
      else if s[1] == 0x75 then
        if |s| < 6 then None
        else match HexFour(s[2..6]) case None => None case Some(c) => Prepend(c, ReadBody(s[6..]))
      else match SimpleEscape(s[1]) case None => None case Some(c) => Prepend(c, ReadBody(s[2..]))
    else if s[0] < SPACE then None
    else Prepend(s[0], ReadBody(s[1..]))
  }

  lemma HexDigitReads(d: int)
    requires 0 <= d < 16
    ensures HexValue(HexDigit(d)) == Some(d)
  {
  }

  lemma HexDigitsOf(c: CodeUnit)
    ensures c / 4096 < 16 && c == (c / 4096) * 4096 + (c / 256 % 16) * 256 + (c / 16 % 16) * 16 + c % 16
  {
  }

  lemma HexRoundTrip(c: CodeUnit)
    ensures HexFour(UnicodeEscape(c)[2..6]) == Some(c)
  {
    hide HexDigit, HexValue;
    HexDigitsOf(c);
    HexDigitReads(c / 4096);
    HexDigitReads(c / 256 % 16);
    HexDigitReads(c / 16 % 16);
    HexDigitReads(c % 16);
  }

  lemma ReadEscapedUnit(c: CodeUnit, tail: Text)
    ensures ReadBody(EscapeUnit(c) + tail) == Prepend(c, ReadBody(tail))
  {
    var e := EscapeUnit(c);
    assert (e + tail)[|e|..] == tail;
    if |e| == 6 {
      HexRoundTrip(c);
      assert (e + tail)[2..6] == e[2..6];
    }
  }

  lemma ReadPlainUnit(c: CodeUnit, tail: Text)
    requires c >= SPACE && c != QUOTE && c != BACKSLASH
    ensures ReadBody([c] + tail) == Prepend(c, ReadBody(tail))
  {
    assert ([c] + tail)[1..] == tail;
  }

  predicate StartsWithPair(s: Text) {
    |s| >= 2 && IsHigh(s[0]) && IsLow(s[1])
  }

  lemma QuoteBodyPair(s: Text, tail: Text)
    requires StartsWithPair(s)
    ensures QuoteBody(s) + tail == [s[0]] + ([s[1]] + (QuoteBody(s[2..]) + tail))
  {
    PairAppend(s[0], s[1], QuoteBody(s[2..]), tail);
  }

  lemma PairAppend(a: CodeUnit, b: CodeUnit, q: Text, tail: Text)
    ensures [a, b] + q + tail == [a] + ([b] + (q + tail))
  {
  }

  lemma QuoteBodyUnit(s: Text, tail: Text)
    requires s != [] && !StartsWithPair(s)
    ensures QuoteBody(s) + tail == EscapeUnit(s[0]) + (QuoteBody(s[1..]) + tail)
  {
    hide EscapeUnit;
    UnitAppend(EscapeUnit(s[0]), QuoteBody(s[1..]), tail);
  }

  lemma UnitAppend(e: Text, q: Text, tail: Text)
    ensures e + q + tail == e + (q + tail)
  {
  }

  lemma {:induction false} ReadQuoted(s: Text, tail: Text, rest: Text)
    requires ReadBody(tail) == Some(([], rest))
    ensures ReadBody(QuoteBody(s) + tail) == Some((s, rest))
    decreases |s|
  {
    if s == [] {
      assert QuoteBody(s) + tail == tail;
    } else if StartsWithPair(s) {
      var t := QuoteBody(s[2..]) + tail;
      QuoteBodyPair(s, tail);
      ReadQuoted(s[2..], tail, rest);
      ReadPlainUnit(s[1], t);
      ReadPlainUnit(s[0], [s[1]] + t);
      assert s == [s[0]] + ([s[1]] + s[2..]);
    } else {
      QuoteBodyUnit(s, tail);
      ReadQuoted(s[1..], tail, rest);
      ReadEscapedUnit(s[0], QuoteBody(s[1..]) + tail);
      assert s == [s[0]] + s[1..];
    }
  }

  /** Reading back what `JSON.stringify` printed gives the string, whatever its code units. */
  lemma QuoteRoundTrip(s: Text, rest: Text)
    ensures ReadBody((Quote(s) + rest)[1..]) == Some((s, rest))
  {
    var tail := [QUOTE] + rest;
    assert tail[1..] == rest;
    ReadQuoted(s, tail, rest);
    assert (Quote(s) + rest)[1..] == QuoteBody(s) + tail;
  }

  // ----- numbers (RFC 8259, section 6) -----

  predicate StartsNumber(c: CodeUnit) {
    c == MINUS || IsDigit(c)
  }

  /** The code units a number token is made of. */
  predicate IsNumberUnit(c: CodeUnit) {
    IsDigit(c) || c == MINUS || c == PLUS || c == DOT || c == 0x65 || c == 0x45
  }

  predicate NumberUnits(s: Text) {
    forall i | 0 <= i < |s| :: IsNumberUnit(s[i])
  }

  function FractionLength(s: Text): (n: nat)
    ensures n <= |s| && NumberUnits(s[..n])
  {
    if s != [] && s[0] == DOT && DigitRun(s[1..]) > 0 then
      var n := DigitRun(s[1..]);
      assert s[..1 + n] == [DOT] + s[1..][..n];
      1 + n
    else 0
  }

  function ExponentLength(s: Text): (n: nat)
    ensures n <= |s| && NumberUnits(s[..n])
  {
    if s == [] || (s[0] != 0x65 && s[0] != 0x45) then 0
    else
      var sign := if |s| > 1 && (s[1] == PLUS || s[1] == MINUS) then 1 else 0;
      var digits := DigitRun(s[1 + sign..]);
      assert s[..1 + sign + digits] == s[..1 + sign] + s[1 + sign..][..digits];
      if digits > 0 then 1 + sign + digits else 0
  }

  /** Length of the part before the fraction: one zero, or a run of digits not starting with zero. */
  function WholeLength(s: Text): (n: nat)
    ensures n <= |s| && NumberUnits(s[..n])
    ensures n > 0 ==> StartsNumber(s[0])
  {
    var sign := if s != [] && s[0] == MINUS then 1 else 0;
    var digits := DigitRun(s[sign..]);
    assert s[..sign + digits] == s[..sign] + s[sign..][..digits];
    if digits == 0 then 0
    else sign + (if s[sign] == ZERO then 1 else digits)
  }

  lemma NumberUnitsConcat(s: Text, i: nat, j: nat)
    requires i + j <= |s| && NumberUnits(s[..i]) && NumberUnits(s[i..][..j])
    ensures NumberUnits(s[..i + j])
  {
    assert s[..i + j] == s[..i] + s[i..][..j];
  }

  /** Length of the longest number token at the front, if there is one. */
  function NumberLength(s: Text): (n: Option<nat>)
    ensures n.Some? ==> 0 < n.value <= |s| && StartsNumber(s[0]) && NumberUnits(s[..n.value])
  {
    var whole := WholeLength(s);
    var fraction := FractionLength(s[whole..]);
    var exponent := ExponentLength(s[whole + fraction..]);
    NumberUnitsConcat(s, whole, fraction);
    NumberUnitsConcat(s, whole + fraction, exponent);
    if whole == 0 then None else Some(whole + fraction + exponent)
  }

  /** The text of one complete JSON number. */
  predicate IsNumberToken(s: Text) {
    NumberLength(s) == Some(|s|)
  }

  lemma {:induction false} PlainQuoteBody(s: Text)
    requires NumberUnits(s)
    ensures QuoteBody(s) == s
  {
    if s != [] {
      PlainQuoteBody(s[1..]);
      assert IsNumberUnit(s[0]) && EscapeUnit(s[0]) == [s[0]];
      assert s == [s[0]] + s[1..];
    }
  }

  // ----- values -----

  predicate IsSpace(c: CodeUnit) {
    c == SPACE || c == TAB || c == LF || c == CR
  }

  function SkipSpace(s: Text): (r: Text)
    ensures |r| <= |s|
    ensures r == [] || !IsSpace(r[0])
  {
    if s != [] && IsSpace(s[0]) then SkipSpace(s[1..]) else s
  }

  const TRUE: Text := [0x74, 0x72, 0x75, 0x65]
  const FALSE: Text := [0x66, 0x61, 0x6C, 0x73, 0x65]
  const NULL: Text := [0x6E, 0x75, 0x6C, 0x6C]
  const OPEN_ARRAY: CodeUnit := 0x5B
  const CLOSE_ARRAY: CodeUnit := 0x5D
  const OPEN_OBJECT: CodeUnit := 0x7B
  const CLOSE_OBJECT: CodeUnit := 0x7D

  /** What follows the given word, if the text starts with it. */
  function After(word: Text, s: Text): (r: Option<Text>)
    ensures r.Some? ==> |r.value| == |s| - |word|
  {
    if word == [] then Some(s)
    else if s != [] && s[0] == word[0] then After(word[1..], s[1..])
    else None
  }

  function Word(word: Text, v: Json, s: Text): (r: Option<(Json, Text)>)
    ensures r.Some? ==> |r.value.1| == |s| - |word|
  {
    match After(word, s) case None => None case Some(rest) => Some((v, rest))
  }

  function ReadString(s: Text): (r: Option<(Json, Text)>)
    requires s != []
    ensures r.Some? ==> |r.value.1| < |s|
  {
    match ReadBody(s[1..]) case None => None case Some((text, rest)) => Some((String(text), rest))
  }

  function ReadNumber(s: Text): (r: Option<(Json, Text)>)
    ensures r.Some? ==> |r.value.1| < |s|
  {
    match NumberLength(s) case None => None case Some(n) => Some((Number(s[..n]), s[n..]))
  }

  /** Reads one value and returns it with what follows. With `lax`, a member's key may also be a
      number token. */
  function Value(s: Text, lax: bool): (r: Option<(Json, Text)>)
    ensures r.Some? ==> |r.value.1| < |s|
    decreases |s|, 0
  {
    var t := SkipSpace(s);
    if t == [] then None
    else if t[0] == OPEN_OBJECT then
      var u := SkipSpace(t[1..]);
      if u != [] && u[0] == CLOSE_OBJECT then Some((Object([]), u[1..]))
      else match Members(t[1..], lax) case None => None case Some((ms, rest)) => Some((Object(ms), rest))
    else if t[0] == OPEN_ARRAY then
      var u := SkipSpace(t[1..]);
      if u != [] && u[0] == CLOSE_ARRAY then Some((Array([]), u[1..]))
      else match Items(t[1..], lax) case None => None case Some((vs, rest)) => Some((Array(vs), rest))
    else if t[0] == QUOTE then ReadString(t)
    else if StartsNumber(t[0]) then ReadNumber(t)
    else if t[0] == TRUE[0] then Word(TRUE, Bool(true), t)
    else if t[0] == FALSE[0] then Word(FALSE, Bool(false), t)
    else Word(NULL, Null, t)
  }

  /** Reads the items of a non-empty array up to and including its closing bracket. */
  function Items(s: Text, lax: bool): (r: Option<(seq<Json>, Text)>)
    ensures r.Some? ==> |r.value.1| < |s| && r.value.0 != []
    decreases |s|, 1
  {
    match Value(s, lax)
    case None => None
    case Some((v, rest)) =>
      var t := SkipSpace(rest);
      if t == [] then None
      else if t[0] == CLOSE_ARRAY then Some(([v], t[1..]))
      else if t[0] != COMMA then None
      else match Items(t[1..], lax)
        case None => None
        case Some((vs, rest')) => Some(([v] + vs, rest'))
  }

  /** Reads a member's key: its text, whether it was a bare number, and what follows. */
  function Key(s: Text, lax: bool): (r: Option<(Text, bool, Text)>)
    ensures r.Some? ==> |r.value.2| < |s|
  {
    var t := SkipSpace(s);
    if t == [] then None
    else if t[0] == QUOTE then
      match ReadBody(t[1..]) case None => None case Some((key, rest)) => Some((key, false, rest))
    else if lax && StartsNumber(t[0]) then
      match NumberLength(t) case None => None case Some(n) => Some((t[..n], true, t[n..]))
    else None
  }

  /** Reads the members of a non-empty object up to and including its closing brace. */
  function Members(s: Text, lax: bool): (r: Option<(seq<Member>, Text)>)
    ensures r.Some? ==> |r.value.1| < |s| && r.value.0 != []
    decreases |s|, 1
  {
    match Key(s, lax)
    case None => None
    case Some((key, bare, afterKey)) =>
      var t := SkipSpace(afterKey);
      if t == [] || t[0] != COLON then None
      else match Value(t[1..], lax)
        case None => None
        case Some((v, rest)) =>
          var u := SkipSpace(rest);
          if u == [] then None
          else if u[0] == CLOSE_OBJECT then Some(([Member(key, bare, v)], u[1..]))
          else if u[0] != COMMA then None
          else match Members(u[1..], lax)
            case None => None
            case Some((ms, rest')) => Some(([Member(key, bare, v)] + ms, rest'))
  }

  /** `JSON.parse`, before numbers are rounded and repeated keys are merged: the tree of a whole
      text. With `lax == false` this is exactly the grammar of RFC 8259. */
  function Parse(s: Text, lax: bool): Option<Json> {
    match Value(s, lax)
    case None => None
    case Some((v, rest)) => if SkipSpace(rest) == [] then Some(v) else None
  }

  /** No member's key was written as a bare number. */
  predicate NoBareKeys(v: Json) {
    match v
    case Array(items) => forall i | 0 <= i < |items| :: NoBareKeys(items[i])
    case Object(members) => forall i | 0 <= i < |members| :: !members[i].bare && NoBareKeys(members[i].value)
    case _ => true
  }
}
