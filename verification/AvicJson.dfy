/** `parseAvicJson`: every number token is rewritten as a string before `JSON.parse` could round it.
    The main result relates the rewritten text, read strictly, to the original text. */
module AvicJson {
  import opened Prelude
  import opened Text
  import opened Json

  // ----- the rewriting -----

  function JoinTo(front: Text, r: Option<Text>): Option<Text> {
    match r case None => None case Some(s) => Some(front + s)
  }

  /** How far a string literal reaches after its opening quote, counting the closing quote. A
      backslash hides whatever code unit follows it. */
  function LiteralLength(s: Text): (n: Option<nat>)
    ensures n.Some? ==> 0 < n.value <= |s|
  {
    if s == [] then None
    else if s[0] == BACKSLASH then
      if |s| < 2 then None
      else match LiteralLength(s[2..]) case None => None case Some(n) => Some(n + 2)
    else if s[0] == QUOTE then Some(1)
    else match LiteralLength(s[1..]) case None => None case Some(n) => Some(n + 1)
  }

  function Transform(s: Text): Option<Text>
    decreases |s|
  {
    if s == [] then Some([])
    else if s[0] == QUOTE then
      match LiteralLength(s[1..])
      case None => None
      case Some(n) => JoinTo(s[..1 + n], Transform(s[1 + n..]))
    else if StartsNumber(s[0]) then
      match NumberLength(s)
      case None => None
      case Some(n) => JoinTo(Quote(s[..n]), Transform(s[n..]))
    else JoinTo([s[0]], Transform(s[1..]))
  }

  /** The tree with each number replaced by a string holding its token. */
  function Quoted(v: Json): Json
    decreases v, 1
  {
    match v
    case Number(token) => String(token)
    case Array(items) => Array(QuotedItems(items))
    case Object(members) => Object(QuotedMembers(members))
    case _ => v
  }

  function QuotedItems(vs: seq<Json>): (r: seq<Json>)
    ensures |r| == |vs| && forall i | 0 <= i < |vs| :: r[i] == Quoted(vs[i])
    decreases vs, 0
  {
    seq(|vs|, i requires 0 <= i < |vs| => Quoted(vs[i]))
  }

  function QuotedMembers(ms: seq<Member>): (r: seq<Member>)
    ensures |r| == |ms|
    ensures forall i | 0 <= i < |ms| :: r[i] == Member(ms[i].key, false, Quoted(ms[i].value))
    decreases ms, 0
  {
    seq(|ms|, i requires 0 <= i < |ms| => Member(ms[i].key, false, Quoted(ms[i].value)))
  }

  // ----- one token at a time -----

  /** The first code unit of the rewritten text: the same one, or the quote that now opens a token. */
  lemma TransformHead(s: Text)
    requires Transform(s).Some?
    ensures (s == []) == (Transform(s).value == [])
    ensures s != [] && s[0] != QUOTE && !StartsNumber(s[0]) ==>
              Transform(s).value[0] == s[0] && Transform(s[1..]) == Some(Transform(s).value[1..])
    ensures s != [] && (s[0] == QUOTE || StartsNumber(s[0])) ==> Transform(s).value[0] == QUOTE
  {
  }

  lemma {:induction false} TransformSpace(s: Text)
    requires Transform(s).Some?
    ensures Transform(SkipSpace(s)) == Some(SkipSpace(Transform(s).value))
  {
    TransformHead(s);
    if s != [] && IsSpace(s[0]) {
      TransformSpace(s[1..]);
    }
  }

  lemma {:induction false} TransformWord(word: Text, s: Text)
    requires Transform(s).Some?
    requires forall i | 0 <= i < |word| :: word[i] != QUOTE && !StartsNumber(word[i])
    ensures After(word, s).Some? == After(word, Transform(s).value).Some?
    ensures After(word, s).Some? ==> Transform(After(word, s).value) == After(word, Transform(s).value)
  {
    TransformHead(s);
    if word != [] && s != [] && s[0] == word[0] {
      TransformWord(word[1..], s[1..]);
    }
  }

  lemma HexIsNotSpecial(s: Text)
    requires |s| >= 4 && HexFour(s).Some?
    ensures forall i | 0 <= i < 4 :: s[i] != QUOTE && s[i] != BACKSLASH
  {
  }

  /** The scanner steps over a code unit that is neither a quote nor a backslash. */
  lemma {:induction false} LiteralSkip(s: Text, k: nat)
    requires k <= |s| && forall i | 0 <= i < k :: s[i] != QUOTE && s[i] != BACKSLASH
    ensures LiteralLength(s).Some? == LiteralLength(s[k..]).Some?
    ensures LiteralLength(s).Some? ==> LiteralLength(s).value == k + LiteralLength(s[k..]).value
  {
    if k > 0 {
      LiteralSkip(s[1..], k - 1);
      assert s[1..][k - 1..] == s[k..];
    } else {
      assert s[0..] == s;
    }
  }

  /** Any string the reader accepts ends where the scanner says it does. */
  lemma {:induction false} LiteralAgrees(s: Text)
    requires ReadBody(s).Some?
    ensures LiteralLength(s).Some? && ReadBody(s).value.1 == s[LiteralLength(s).value..]
    decreases |s|
  {
    if s[0] == QUOTE {
    } else if s[0] == BACKSLASH && s[1] == 0x75 {
      LiteralAgrees(s[6..]);
      HexIsNotSpecial(s[2..6]);
      assert forall i | 0 <= i < 4 :: s[2..][i] == s[2..6][i];
      LiteralSkip(s[2..], 4);
      assert s[2..][4..] == s[6..];
    } else if s[0] == BACKSLASH {
      LiteralAgrees(s[2..]);
    } else {
      LiteralAgrees(s[1..]);
    }
  }

  /** What the reader makes of a literal does not depend on what follows it. */
  lemma {:induction false} LiteralLocal(s: Text, rest: Text)
    requires LiteralLength(s).Some?
    ensures var n := LiteralLength(s).value;
            ReadBody(s[..n] + rest) ==
            match ReadBody(s) case None => None case Some((text, _)) => Some((text, rest))
    decreases |s|
  {
    var n := LiteralLength(s).value;
    var t := s[..n] + rest;
    if s[0] == QUOTE {
      assert t[1..] == rest;
    } else if s[0] == BACKSLASH && s[1] == 0x75 {
      LiteralEscape(s, rest);
    } else if s[0] == BACKSLASH {
      LiteralLocal(s[2..], rest);
      assert t[2..] == s[2..][..n - 2] + rest;
    } else {
      LiteralLocal(s[1..], rest);
      assert t[1..] == s[1..][..n - 1] + rest;
    }
  }

  lemma {:induction false} LiteralEscape(s: Text, rest: Text)
    requires LiteralLength(s).Some? && s[0] == BACKSLASH && s[1] == 0x75
    ensures var n := LiteralLength(s).value;
            ReadBody(s[..n] + rest) ==
            match ReadBody(s) case None => None case Some((text, _)) => Some((text, rest))
    decreases |s|, 0
  {
    var n := LiteralLength(s).value;
    var t := s[..n] + rest;
    if |s| >= 6 && HexFour(s[2..6]).Some? {
      HexIsNotSpecial(s[2..6]);
      assert forall i | 0 <= i < 4 :: s[2..][i] == s[2..6][i];
      LiteralSkip(s[2..], 4);
      assert s[2..][4..] == s[6..];
      LiteralLocal(s[6..], rest);
      assert t[6..] == s[6..][..n - 6] + rest;
      assert t[2..6] == s[2..6];
    } else {
      LiteralEscapeFails(s, rest);
    }
  }

  /** A malformed escape stays malformed: its four places either are the same ones or hold the quote. */
  lemma LiteralEscapeFails(s: Text, rest: Text)
    requires LiteralLength(s).Some? && s[0] == BACKSLASH && s[1] == 0x75
    requires |s| < 6 || HexFour(s[2..6]) == None
    ensures var t := s[..LiteralLength(s).value] + rest; |t| < 6 || HexFour(t[2..6]) == None
  {
    var n := LiteralLength(s).value;
    var t := s[..n] + rest;
    LiteralCloses(s);
    if |t| >= 6 {
      if n > 6 {
        assert t[2..6] == s[2..6];
      } else {
        assert t[2..6][n - 3] == s[n - 1];
      }
    }
  }

  lemma {:induction false} LiteralCloses(s: Text)
    requires LiteralLength(s).Some?
    ensures s[LiteralLength(s).value - 1] == QUOTE
    ensures s[0] == BACKSLASH ==> LiteralLength(s).value >= 3
    decreases |s|
  {
    if s[0] == BACKSLASH {
      LiteralCloses(s[2..]);
    } else if s[0] != QUOTE {
      LiteralCloses(s[1..]);
    }
  }

  lemma TransformLiteral(s: Text)
    requires s != [] && s[0] == QUOTE && Transform(s).Some?
    ensures LiteralLength(s[1..]).Some?
    ensures var n := LiteralLength(s[1..]).value;
            Transform(s[1 + n..]).Some? &&
            Transform(s).value[1..] == s[1..][..n] + Transform(s[1 + n..]).value &&
            s[1 + n..] == s[1..][n..]
  {
    var n := LiteralLength(s[1..]).value;
    CopiedLiteral(s, n, Transform(s[1 + n..]).value);
  }

  /** A string literal is copied unchanged, so it reads the same. */
  lemma TransformString(s: Text)
    requires s != [] && s[0] == QUOTE && Transform(s).Some?
    ensures match ReadBody(s[1..])
            case None => ReadBody(Transform(s).value[1..]) == None
            case Some((text, rest)) =>
              Transform(rest).Some? &&
              ReadBody(Transform(s).value[1..]) == Some((text, Transform(rest).value))
  {
    hide *;
    TransformLiteral(s);
    var body := s[1..];
    var n := LiteralLength(body).value;
    LiteralLocal(body, Transform(s[1 + n..]).value);
    if ReadBody(body).Some? {
      LiteralAgrees(body);
    }
  }

  lemma CopiedLiteral(s: Text, n: nat, tail: Text)
    requires 1 + n <= |s|
    ensures (s[..1 + n] + tail)[1..] == s[1..][..n] + tail
  {
  }

  /** A number token becomes a string that reads back as exactly that token. */
  lemma TransformNumber(s: Text)
    requires s != [] && StartsNumber(s[0]) && Transform(s).Some?
    ensures var n := NumberLength(s);
            n.Some? && Transform(s[n.value..]).Some? &&
            ReadBody(Transform(s).value[1..]) == Some((s[..n.value], Transform(s[n.value..]).value))
  {
    var n := NumberLength(s).value;
    QuoteRoundTrip(s[..n], Transform(s[n..]).value);
  }

  // ----- values -----

  /** Reading a value leniently from the original and strictly from the rewritten text fail
      together, or succeed together with corresponding trees and corresponding rests. */
  ghost predicate Corresponds<V>(r: Option<(V, Text)>, r': Option<(V, Text)>, quoted: V -> V) {
    match r
    case None => r' == None
    case Some((v, rest)) => Transform(rest).Some? && r' == Some((quoted(v), Transform(rest).value))
  }

  lemma TransformKey(s: Text)
    requires Transform(s).Some?
    ensures match Key(s, true)
            case None => Key(Transform(s).value, false) == None
            case Some((key, bare, rest)) =>
              Transform(rest).Some? &&
              Key(Transform(s).value, false) == Some((key, false, Transform(rest).value))
  {
    TransformSpace(s);
    var t := SkipSpace(s);
    TransformHead(t);
    if t != [] {
      if t[0] == QUOTE {
        TransformString(t);
      } else if StartsNumber(t[0]) {
        TransformNumber(t);
      }
    }
  }

  /** The word `true`, `false` or `null` that a value starting with the given code unit must be. */
  function KeywordOf(c: CodeUnit): (Text, Json) {
    if c == TRUE[0] then (TRUE, Bool(true)) else if c == FALSE[0] then (FALSE, Bool(false)) else (NULL, Null)
  }

  predicate IsKeywordStart(t: Text) {
    t != [] && t == SkipSpace(t) && t[0] != QUOTE && !StartsNumber(t[0]) &&
    t[0] != OPEN_ARRAY && t[0] != OPEN_OBJECT
  }

  lemma ValueIsKeyword(t: Text, lax: bool)
    requires IsKeywordStart(t)
    ensures Value(t, lax) == Word(KeywordOf(t[0]).0, KeywordOf(t[0]).1, t)
  {
  }

  lemma TransformKeyword(t: Text)
    requires Transform(t).Some? && IsKeywordStart(t)
    ensures Corresponds(Value(t, true), Value(Transform(t).value, false), Quoted)
  {
    hide Value, Transform, After, TRUE, FALSE, NULL;
    TransformHead(t);
    TransformSpace(t);
    ValueIsKeyword(t, true);
    ValueIsKeyword(Transform(t).value, false);
    KeywordIsPlain(t[0]);
    TransformWord(KeywordOf(t[0]).0, t);
  }

  lemma KeywordIsPlain(c: CodeUnit)
    ensures var (word, v) := KeywordOf(c);
            Quoted(v) == v && forall i | 0 <= i < |word| :: word[i] != QUOTE && !StartsNumber(word[i])
  {
  }

  lemma TransformScalar(t: Text)
    requires Transform(t).Some? && t != [] && t == SkipSpace(t)
    requires t[0] != OPEN_ARRAY && t[0] != OPEN_OBJECT
    ensures Corresponds(Value(t, true), Value(Transform(t).value, false), Quoted)
  {
    if t[0] == QUOTE {
      TransformHead(t);
      TransformSpace(t);
      TransformString(t);
    } else if StartsNumber(t[0]) {
      TransformHead(t);
      TransformSpace(t);
      TransformNumber(t);
    } else {
      TransformKeyword(t);
    }
  }

  lemma {:induction false} TransformValue(s: Text)
    requires Transform(s).Some?
    ensures Corresponds(Value(s, true), Value(Transform(s).value, false), Quoted)
    decreases |s|, 0
  {
    hide Transform, Items, Members, SkipSpace, ReadString, ReadNumber, Word;
    TransformSpace(s);
    var t := SkipSpace(s);
    SkipSpaceTwice(s);
    SkipSpaceTwice(Transform(s).value);
    TransformHead(t);
    if t != [] {
      if t[0] == OPEN_ARRAY || t[0] == OPEN_OBJECT {
        TransformSpace(t[1..]);
        TransformHead(SkipSpace(t[1..]));
        if t[0] == OPEN_ARRAY {
          TransformItems(t[1..]);
        } else {
          TransformMembers(t[1..]);
        }
      } else {
        TransformScalar(t);
      }
    }
  }

  lemma {:induction false} SkipSpaceTwice(s: Text)
    ensures SkipSpace(SkipSpace(s)) == SkipSpace(s)
    ensures forall lax :: Value(s, lax) == Value(SkipSpace(s), lax)
  {
  }

  lemma {:induction false} TransformItems(s: Text)
    requires Transform(s).Some?
    ensures Corresponds(Items(s, true), Items(Transform(s).value, false), QuotedItems)
    decreases |s|, 1
  {
    hide Transform, Value, SkipSpace;
    TransformValue(s);
    match Value(s, true)
    case None =>
    case Some((v, rest)) =>
      TransformSpace(rest);
      var t := SkipSpace(rest);
      TransformHead(t);
      assert QuotedItems([v]) == [Quoted(v)];
      if t != [] && t[0] == COMMA {
        TransformItems(t[1..]);
        match Items(t[1..], true)
        case None =>
        case Some((vs, _)) => assert QuotedItems([v] + vs) == [Quoted(v)] + QuotedItems(vs);
      }
  }

  lemma {:induction false} TransformMembers(s: Text)
    requires Transform(s).Some?
    ensures Corresponds(Members(s, true), Members(Transform(s).value, false), QuotedMembers)
    decreases |s|, 1
  {
    hide Transform, Key, Value, SkipSpace;
    TransformKey(s);
    match Key(s, true)
    case None =>
    case Some((key, bare, afterKey)) =>
      TransformSpace(afterKey);
      var t := SkipSpace(afterKey);
      TransformHead(t);
      if t != [] && t[0] == COLON {
        TransformValue(t[1..]);
        match Value(t[1..], true)
        case None =>
        case Some((v, rest)) => TransformMoreMembers(Member(key, bare, v), rest, |s|);
      }
  }

  /** What follows the first member of an object. */
  function MoreMembers(m: Member, rest: Text, lax: bool): Option<(seq<Member>, Text)> {
    var u := SkipSpace(rest);
    if u == [] then None
    else if u[0] == CLOSE_OBJECT then Some(([m], u[1..]))
    else if u[0] != COMMA then None
    else match Members(u[1..], lax)
      case None => None
      case Some((ms, rest')) => Some(([m] + ms, rest'))
  }

  lemma {:induction false} TransformMoreMembers(m: Member, rest: Text, size: nat)
    requires Transform(rest).Some? && |rest| < size
    ensures Corresponds(MoreMembers(m, rest, true),
                        MoreMembers(Member(m.key, false, Quoted(m.value)), Transform(rest).value, false),
                        QuotedMembers)
    decreases size, 0
  {
    hide Transform, Members, SkipSpace;
    TransformSpace(rest);
    var u := SkipSpace(rest);
    TransformHead(u);
    assert QuotedMembers([m]) == [Member(m.key, false, Quoted(m.value))];
    if u != [] && u[0] == COMMA {
      TransformMembers(u[1..]);
      match Members(u[1..], true)
      case None =>
      case Some((ms, _)) =>
        assert QuotedMembers([m] + ms) == [Member(m.key, false, Quoted(m.value))] + QuotedMembers(ms);
    }
  }

  // ----- whatever reads leniently can be rewritten -----

  lemma {:induction false} SpaceTransforms(s: Text)
    requires Transform(SkipSpace(s)).Some?
    ensures Transform(s).Some?
  {
    if s != [] && IsSpace(s[0]) {
      SpaceTransforms(s[1..]);
    }
  }

  lemma {:induction false} WordTransforms(word: Text, s: Text)
    requires forall i | 0 <= i < |word| :: word[i] != QUOTE && !StartsNumber(word[i])
    requires After(word, s).Some? && Transform(After(word, s).value).Some?
    ensures Transform(s).Some?
  {
    if word != [] {
      WordTransforms(word[1..], s[1..]);
    }
  }

  lemma StringTransforms(s: Text)
    requires s != [] && s[0] == QUOTE && ReadBody(s[1..]).Some?
    requires Transform(ReadBody(s[1..]).value.1).Some?
    ensures Transform(s).Some?
  {
    LiteralAgrees(s[1..]);
    var n := LiteralLength(s[1..]).value;
    assert s[1..][n..] == s[1 + n..];
  }

  lemma KeyTransforms(s: Text)
    requires Key(s, true).Some? && Transform(Key(s, true).value.2).Some?
    ensures Transform(s).Some?
  {
    var t := SkipSpace(s);
    if t[0] == QUOTE {
      StringTransforms(t);
    }
    SpaceTransforms(s);
  }

  lemma ScalarTransforms(t: Text)
    requires t != [] && t == SkipSpace(t) && t[0] != OPEN_ARRAY && t[0] != OPEN_OBJECT
    requires Value(t, true).Some? && Transform(Value(t, true).value.1).Some?
    ensures Transform(t).Some?
  {
    if t[0] == QUOTE {
      StringTransforms(t);
    } else if !StartsNumber(t[0]) {
      hide Value, Transform, TRUE, FALSE, NULL;
      ValueIsKeyword(t, true);
      KeywordIsPlain(t[0]);
      WordTransforms(KeywordOf(t[0]).0, t);
    }
  }

  lemma {:induction false} ValueTransforms(s: Text)
    requires Value(s, true).Some? && Transform(Value(s, true).value.1).Some?
    ensures Transform(s).Some?
    decreases |s|, 0
  {
    var t := SkipSpace(s);
    SkipSpaceTwice(s);
    if t[0] == OPEN_ARRAY || t[0] == OPEN_OBJECT {
      var u := SkipSpace(t[1..]);
      if u != [] && u[0] == (if t[0] == OPEN_ARRAY then CLOSE_ARRAY else CLOSE_OBJECT) {
        SpaceTransforms(t[1..]);
      } else if t[0] == OPEN_ARRAY {
        ItemsTransforms(t[1..]);
      } else {
        MembersTransforms(t[1..]);
      }
    } else {
      ScalarTransforms(t);
    }
    SpaceTransforms(s);
  }

  lemma {:induction false} ItemsTransforms(s: Text)
    requires Items(s, true).Some? && Transform(Items(s, true).value.1).Some?
    ensures Transform(s).Some?
    decreases |s|, 1
  {
    hide Value, SkipSpace;
    var rest := Value(s, true).value.1;
    var t := SkipSpace(rest);
    if t[0] == COMMA {
      ItemsTransforms(t[1..]);
    }
    SpaceTransforms(rest);
    ValueTransforms(s);
  }

  lemma {:induction false} MembersTransforms(s: Text)
    requires Members(s, true).Some? && Transform(Members(s, true).value.1).Some?
    ensures Transform(s).Some?
    decreases |s|, 1
  {
    hide Value, Key, SkipSpace;
    var afterKey := Key(s, true).value.2;
    var t := SkipSpace(afterKey);
    var rest := Value(t[1..], true).value.1;
    var u := SkipSpace(rest);
    if u[0] == COMMA {
      MembersTransforms(u[1..]);
    }
    SpaceTransforms(rest);
    ValueTransforms(t[1..]);
    SpaceTransforms(afterKey);
    KeyTransforms(s);
  }

  // ----- whole texts -----

  /** What `parseAvicJson` returns, with the errors it throws as `None`. */
  function ParseAvic(text: Text): Option<Json> {
    match Transform(text) case None => None case Some(t) => Parse(t, false)
  }

  /** For every text whatsoever: `parseAvicJson` fails exactly when the lax reading fails, and
      otherwise yields the lax tree with every number replaced by a string of its exact token. */
  lemma ParseAvicIsLax(text: Text)
    ensures ParseAvic(text) ==
            match Parse(text, true) case None => None case Some(v) => Some(Quoted(v))
  {
    if Transform(text).Some? {
      TransformValue(text);
      match Value(text, true)
      case None =>
      case Some((v, rest)) =>
        TransformSpace(rest);
        TransformHead(SkipSpace(rest));
    } else if Parse(text, true).Some? {
      SpaceTransforms(Value(text, true).value.1);
      ValueTransforms(text);
    }
  }

  /** The strict reading accepts what the lax reading accepts without a bare key, with the same tree. */
  lemma {:induction false} StrictValue(s: Text)
    ensures Value(s, false) ==
            match Value(s, true)
            case None => None
            case Some((v, rest)) => if NoBareKeys(v) then Some((v, rest)) else None
    decreases |s|, 0
  {
    var t := SkipSpace(s);
    if t != [] && t[0] == OPEN_ARRAY {
      StrictItems(t[1..]);
    } else if t != [] && t[0] == OPEN_OBJECT {
      StrictMembers(t[1..]);
    }
  }

  lemma {:induction false} StrictItems(s: Text)
    ensures Items(s, false) ==
            match Items(s, true)
            case None => None
            case Some((vs, rest)) => if NoBareKeys(Array(vs)) then Some((vs, rest)) else None
    decreases |s|, 1
  {
    StrictValue(s);
    match Value(s, true)
    case None =>
    case Some((v, rest)) =>
      var t := SkipSpace(rest);
      NoBareItems(v, []);
      assert [v] + [] == [v];
      if t != [] && t[0] == COMMA {
        StrictItems(t[1..]);
        match Items(t[1..], true)
        case None =>
        case Some((vs, _)) => NoBareItems(v, vs);
      }
  }

  lemma NoBareItems(v: Json, vs: seq<Json>)
    ensures NoBareKeys(Array([v] + vs)) == (NoBareKeys(v) && NoBareKeys(Array(vs)))
  {
    if NoBareKeys(Array([v] + vs)) {
      assert ([v] + vs)[0] == v;
      assert forall i | 0 <= i < |vs| :: vs[i] == ([v] + vs)[i + 1];
    }
  }

  lemma {:induction false} StrictMembers(s: Text)
    ensures Members(s, false) ==
            match Members(s, true)
            case None => None
            case Some((ms, rest)) => if NoBareKeys(Object(ms)) then Some((ms, rest)) else None
    decreases |s|, 1
  {
    hide Value, SkipSpace;
    match Key(s, true)
    case None =>
    case Some((key, bare, afterKey)) =>
      var t := SkipSpace(afterKey);
      if t != [] && t[0] == COLON {
        StrictValue(t[1..]);
        match Value(t[1..], true)
        case None =>
        case Some((v, rest)) => StrictMoreMembers(Member(key, bare, v), rest, |s|);
      }
  }

  lemma {:induction false} StrictMoreMembers(m: Member, rest: Text, size: nat)
    requires |rest| < size
    ensures (if m.bare || !NoBareKeys(m.value) then None else MoreMembers(m, rest, false)) ==
            match MoreMembers(m, rest, true)
            case None => None
            case Some((ms, rest')) => if NoBareKeys(Object(ms)) then Some((ms, rest')) else None
    decreases size, 0
  {
    var u := SkipSpace(rest);
    NoBareMembers(m, []);
    assert [m] + [] == [m];
    if u != [] && u[0] == COMMA {
      StrictMembers(u[1..]);
      match Members(u[1..], true)
      case None =>
      case Some((ms, _)) => NoBareMembers(m, ms);
    }
  }

  lemma NoBareMembers(m: Member, ms: seq<Member>)
    ensures NoBareKeys(Object([m] + ms)) == (!m.bare && NoBareKeys(m.value) && NoBareKeys(Object(ms)))
  {
    if NoBareKeys(Object([m] + ms)) {
      assert ([m] + ms)[0] == m;
      assert forall i | 0 <= i < |ms| :: ms[i] == ([m] + ms)[i + 1];
    }
  }

  /** The law the function is for: every text of RFC 8259 is accepted and keeps its tree, each
      number becoming a string of its exact source token. */
  lemma ParseAvicKeepsValidJson(text: Text, v: Json)
    requires Parse(text, false) == Some(v)
    ensures ParseAvic(text) == Some(Quoted(v))
  {
    StrictValue(text);
    ParseAvicIsLax(text);
  }

  /** It accepts more than JSON, though: exactly the texts whose only fault is that numbers are
      used as keys. */
  lemma ParseAvicAcceptsMore(text: Text)
    ensures (ParseAvic(text).Some? && Parse(text, false) == None) <==>
            (Parse(text, true).Some? && !NoBareKeys(Parse(text, true).value))
  {
    StrictValue(text);
    ParseAvicIsLax(text);
  }

  /** `{1:2}` is such a text: it comes back as `{"1":"2"}`. */
  lemma BareKeyIsAccepted()
    ensures var text := [OPEN_OBJECT, 0x31, COLON, 0x32, CLOSE_OBJECT];
            Parse(text, false) == None &&
            ParseAvic(text) == Some(Object([Member([0x31], false, String([0x32]))]))
  {
    var text := [OPEN_OBJECT, 0x31, COLON, 0x32, CLOSE_OBJECT];
    BareKeyReads();
    StrictValue(text);
    ParseAvicIsLax(text);
    var ms := [Member([0x31], true, Number([0x32]))];
    assert QuotedMembers(ms) == [Member([0x31], false, String([0x32]))];
    assert ms[0].bare;
  }

  lemma OneDigitReads(d: CodeUnit, s: Text)
    requires IsDigit(d) && s != [] && !IsNumberUnit(s[0])
    ensures NumberLength([d] + s) == Some(1) && ([d] + s)[..1] == [d] && ([d] + s)[1..] == s
    ensures Value([d] + s, true) == Some((Number([d]), s)) && Key([d] + s, true) == Some(([d], true, s))
  {
    assert ([d] + s)[1..] == s;
    assert DigitRun([d] + s) == 1;
  }

  lemma BareKeyReads()
    ensures Parse([OPEN_OBJECT, 0x31, COLON, 0x32, CLOSE_OBJECT], true) ==
            Some(Object([Member([0x31], true, Number([0x32]))]))
  {
    hide NumberLength, Quote, ReadBody, Word, ReadNumber, Value, Key, Parse;
    var b: Text := [0x32] + [CLOSE_OBJECT];
    var a: Text := [0x31] + ([COLON] + b);
    OneDigitReads(0x32, [CLOSE_OBJECT]);
    OneDigitReads(0x31, [COLON] + b);
    assert ([COLON] + b)[1..] == b;
    assert Members(a, true) == Some(([Member([0x31], true, Number([0x32]))], []));
    BracedMembers(a, [Member([0x31], true, Number([0x32]))]);
    assert [OPEN_OBJECT, 0x31, COLON, 0x32, CLOSE_OBJECT] == [OPEN_OBJECT] + a;
  }

  lemma BracedMembers(a: Text, ms: seq<Member>)
    requires a != [] && !IsSpace(a[0]) && a[0] != CLOSE_OBJECT
    ensures Members(a, true) == Some((ms, [])) ==> Parse([OPEN_OBJECT] + a, true) == Some(Object(ms))
  {
    assert ([OPEN_OBJECT] + a)[1..] == a;
  }

  // ----- the scanner itself -----

  /** The inner loop: from the opening quote at `start` to just past the closing one. */
  method ScanLiteral(text: Text, start: nat) returns (end: Option<nat>)
    requires start < |text|
    ensures end == match LiteralLength(text[start + 1..]) case None => None case Some(n) => Some(start + 1 + n)
  {
    var index := start + 1;
    ghost var whole := ExtendBy(text, start + 1);
    while index < |text|
      invariant start < index <= |text| + 1
      invariant whole == ExtendBy(text, index)
      decreases |text| + 1 - index
    {
      assert text[index..][1..] == text[index + 1..];
      if text[index] == BACKSLASH {
        if index + 2 <= |text| {
          assert text[index..][2..] == text[index + 2..];
        }
        index := index + 2;
      } else {
        index := index + 1;
        if text[index - 1] == QUOTE {
          return Some(index);
        }
      }
    }
    return None;
  }

  /** Where the literal being scanned ends, when `index` is the next place to look. */
  function ExtendBy(text: Text, index: nat): Option<nat> {
    if index > |text| then None
    else match LiteralLength(text[index..]) case None => None case Some(n) => Some(index + n)
  }

  /** The scanning loop: `index` walks the text and `transformed` grows, exactly as far as
      `Transform` says; `None` stands for the two errors the loop throws. */
  method ScanAvicJson(text: Text) returns (result: Option<Text>)
    ensures result == Transform(text)
  {
    hide Quote, NumberLength, LiteralLength, JoinTo;
    var transformed: Text := [];
    var index := 0;
    assert text[0..] == text;
    JoinToEmpty(Transform(text));
    while index < |text|
      invariant 0 <= index <= |text|
      invariant Transform(text) == JoinTo(transformed, Transform(text[index..]))
    {
      var character := text[index];
      var copied: Text := [character];
      var next := index + 1;
      SliceTwice(text, index, 1);
      if character == QUOTE {
        var end := ScanLiteral(text, index);
        if end == None {
          JoinToNone(transformed);
          return None;
        }
        next := end.value;
        copied := text[index..next];
      } else if StartsNumber(character) {
        var token := NumberLength(text[index..]);
        if token == None {
          JoinToNone(transformed);
          return None;
        }
        next := index + token.value;
        copied := Quote(text[index..next]);
      }
      SliceTwice(text, index, next - index);
      JoinToTwice(transformed, copied, Transform(text[next..]));
      transformed := transformed + copied;
      index := next;
    }
    assert text[index..] == [];
    JoinToNothing(transformed);
    return Some(transformed);
  }

  lemma JoinToNone(a: Text)
    ensures JoinTo(a, None) == None
  {
  }

  lemma JoinToNothing(a: Text)
    ensures JoinTo(a, Some([])) == Some(a)
  {
    assert a + [] == a;
  }

  lemma SliceTwice(text: Text, index: nat, n: nat)
    requires index + n <= |text|
    ensures text[index..][..n] == text[index..index + n] && text[index..][n..] == text[index + n..]
  {
  }

  lemma JoinToEmpty(r: Option<Text>)
    ensures JoinTo([], r) == r
  {
    if r.Some? {
      assert [] + r.value == r.value;
    }
  }

  lemma JoinToTwice(a: Text, b: Text, r: Option<Text>)
    ensures JoinTo(a, JoinTo(b, r)) == JoinTo(a + b, r)
  {
    if r.Some? {
      assert a + (b + r.value) == a + b + r.value;
    }
  }

  method ParseAvicJson(text: Text) returns (result: Option<Json>)
    ensures result == match Parse(text, true) case None => None case Some(v) => Some(Quoted(v))
  {
    ParseAvicIsLax(text);
    var transformed := ScanAvicJson(text);
    result := match transformed case None => None case Some(t) => Parse(t, false);
  }
}
