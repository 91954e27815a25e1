/** JavaScript strings: sequences of UTF-16 code units, and the order `Array.prototype.sort`
    uses on them when no comparison function is given. */
module Text {
  type CodeUnit = c: int | 0 <= c < 0x10000

  type Text = seq<CodeUnit>

  const TAB: CodeUnit := 0x09
  const LF: CodeUnit := 0x0A
  const CR: CodeUnit := 0x0D
  const SPACE: CodeUnit := 0x20
  const QUOTE: CodeUnit := 0x22
  const PLUS: CodeUnit := 0x2B
  const COMMA: CodeUnit := 0x2C
  const MINUS: CodeUnit := 0x2D
  const DOT: CodeUnit := 0x2E
  const ZERO: CodeUnit := 0x30
  const COLON: CodeUnit := 0x3A
  const BACKSLASH: CodeUnit := 0x5C

  predicate IsDigit(c: CodeUnit) {
    0x30 <= c <= 0x39
  }

  predicate AllDigits(s: Text) {
    forall c | c in s :: IsDigit(c)
  }

  /** Length of the longest run of digits at the front. */
  function DigitRun(s: Text): (n: nat)
    ensures n <= |s|
    ensures AllDigits(s[..n])
    ensures n < |s| ==> !IsDigit(s[n])
  {
    if s == [] || !IsDigit(s[0]) then 0
    else
      var n := DigitRun(s[1..]);
      assert s[..n + 1] == [s[0]] + s[1..][..n];
      n + 1
  }

  /** Appending something that does not start with a digit does not lengthen a run of digits. */
  lemma {:induction false} DigitRunAppend(digits: Text, rest: Text)
    requires AllDigits(digits)
    requires rest == [] || !IsDigit(rest[0])
    ensures DigitRun(digits + rest) == |digits|
  {
    if digits != [] {
      assert (digits + rest)[1..] == digits[1..] + rest;
      DigitRunAppend(digits[1..], rest);
    } else {
      assert digits + rest == rest;
    }
  }

  /** Lexicographic order by code unit. */
  predicate Less(a: Text, b: Text) {
    b != [] && (a == [] || a[0] < b[0] || (a[0] == b[0] && Less(a[1..], b[1..])))
  }

  lemma {:induction false} LessTrichotomy(a: Text, b: Text)
    ensures Less(a, b) || Less(b, a) || a == b
    ensures !(Less(a, b) && Less(b, a)) && !Less(a, a)
  {
    if a != [] && b != [] && a[0] == b[0] {
      LessTrichotomy(a[1..], b[1..]);
      if a[1..] == b[1..] {
        assert a == [a[0]] + a[1..] && b == [b[0]] + b[1..];
      }
    }
    if a != [] {
      LessTrichotomy(a[1..], a[1..]);
    }
  }

  lemma {:induction false} LessTransitive(a: Text, b: Text, c: Text)
    requires Less(a, b) && Less(b, c)
    ensures Less(a, c)
  {
    if a != [] && a[0] == b[0] && b[0] == c[0] {
      LessTransitive(a[1..], b[1..], c[1..]);
    }
  }

  // ----- white space and trimming -----

  /** What `String.prototype.trim` removes: white space and line terminators. */
  predicate IsWhite(c: CodeUnit) {
    0x09 <= c <= 0x0D || c == SPACE || c == 0xA0 || c == 0x1680 || 0x2000 <= c <= 0x200A ||
    c == 0x2028 || c == 0x2029 || c == 0x202F || c == 0x205F || c == 0x3000 || c == 0xFEFF
  }

  predicate IsBlank(s: Text) {
    forall i | 0 <= i < |s| :: IsWhite(s[i])
  }

  lemma BlankBefore(s: Text, n: nat)
    requires n < |s| && IsWhite(s[|s| - 1]) && IsBlank(s[..|s| - 1][n..])
    ensures IsBlank(s[n..]) && s[..n] == s[..|s| - 1][..n]
  {
    hide IsWhite;
    forall i | n <= i < |s| ensures IsWhite(s[i]) {
      if i < |s| - 1 {
        assert s[..|s| - 1][n..][i - n] == s[i];
      }
    }
  }

  function TrimStart(s: Text): (r: Text)
    ensures |r| <= |s| && r == s[|s| - |r|..] && IsBlank(s[..|s| - |r|])
    ensures r != [] ==> !IsWhite(r[0])
  {
    if s != [] && IsWhite(s[0]) then
      var r := TrimStart(s[1..]);
      assert s[..|s| - |r|] == [s[0]] + s[1..][..|s| - 1 - |r|];
      r
    else s
  }

  function TrimEnd(s: Text): (r: Text)
    ensures |r| <= |s| && r == s[..|r|] && IsBlank(s[|r|..])
    ensures r != [] ==> !IsWhite(r[|r| - 1])
  {
    if s != [] && IsWhite(s[|s| - 1]) then
      var r := TrimEnd(s[..|s| - 1]);
      BlankBefore(s, |r|);
      r
    else s
  }

  function Trim(s: Text): Text {
    TrimEnd(TrimStart(s))
  }

  /** The text without its white space. */
  function Visible(s: Text): Text {
    if s == [] then [] else (if IsWhite(s[0]) then [] else [s[0]]) + Visible(s[1..])
  }

  lemma {:induction false} VisibleAppend(a: Text, b: Text)
    ensures Visible(a + b) == Visible(a) + Visible(b)
  {
    if a == [] {
      assert a + b == b;
    } else {
      assert (a + b)[1..] == a[1..] + b;
      VisibleAppend(a[1..], b);
    }
  }

  lemma {:induction false} VisibleBlank(s: Text)
    requires IsBlank(s)
    ensures Visible(s) == []
  {
    if s != [] {
      VisibleBlank(s[1..]);
    }
  }

  lemma VisibleTrim(s: Text)
    ensures Visible(Trim(s)) == Visible(s)
  {
    hide Visible, TrimStart, TrimEnd, IsBlank;
    var t := TrimStart(s);
    VisibleAround(s, |s| - |t|, |s|);
    VisibleAround(t, 0, |TrimEnd(t)|);
  }

  lemma VisibleAround(s: Text, a: nat, b: nat)
    requires a <= b <= |s|
    ensures IsBlank(s[..a]) && b == |s| ==> Visible(s[a..]) == Visible(s)
    ensures a == 0 && IsBlank(s[b..]) ==> Visible(s[..b]) == Visible(s)
  {
    hide Visible;
    assert s == s[..a] + s[a..] == s[..b] + s[b..];
    VisibleAppend(s[..a], s[a..]);
    VisibleAppend(s[..b], s[b..]);
    if IsBlank(s[..a]) {
      VisibleBlank(s[..a]);
    }
    if IsBlank(s[b..]) {
      VisibleBlank(s[b..]);
    }
  }

  lemma TrimEndKeepsStart(t: Text)
    ensures TrimEnd(t) == [] ==> IsBlank(t)
    ensures TrimEnd(t) != [] ==> TrimEnd(t)[0] == t[0]
  {
    hide TrimEnd, IsWhite, IsBlank;
    var u := TrimEnd(t);
    if u == [] {
      assert t[|u|..] == t;
    } else {
      assert u[0] == t[..|u|][0];
    }
  }

  lemma TrimEnds(s: Text)
    ensures |Trim(s)| <= |TrimStart(s)|
    ensures Trim(s) == [] ==> IsBlank(s)
    ensures Trim(s) != [] ==> !IsWhite(Trim(s)[0]) && !IsWhite(Trim(s)[|Trim(s)| - 1])
  {
    hide TrimStart, TrimEnd, IsWhite, IsBlank;
    var t := TrimStart(s);
    assert Trim(s) == TrimEnd(t);
    TrimEndKeepsStart(t);
    if TrimEnd(t) == [] {
      BlankHalves(s, |s| - |t|);
    }
  }

  lemma BlankHalves(s: Text, a: nat)
    requires a <= |s| && IsBlank(s[..a]) && IsBlank(s[a..])
    ensures IsBlank(s)
  {
    assert s == s[..a] + s[a..];
  }
}
