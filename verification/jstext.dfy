/** The pieces of the JavaScript string and number library that the scraper and the
    exporter lean on: white space as `\s` and `trim` see it, `split`, `join`,
    `includes`, `padStart(2, '0')`, `Number`, `parseInt` and `toString`. */
module JsText {

  /** White space and line terminators as JavaScript's `\s` and `String.prototype.trim` know them. */
  predicate IsWhitespace(c: char) {
    || c == ' ' || c == '\t' || c == '\n' || c == '\r' || c == '\U{000B}' || c == '\U{000C}'
    || c == '\U{00A0}' || c == '\U{1680}' || ('\U{2000}' <= c <= '\U{200A}')
    || c == '\U{2028}' || c == '\U{2029}' || c == '\U{202F}' || c == '\U{205F}'
    || c == '\U{3000}' || c == '\U{FEFF}'
  }

  /** The characters a regular-expression `.` refuses to match. */
  predicate IsLineTerminator(c: char) {
    c == '\n' || c == '\r' || c == '\U{2028}' || c == '\U{2029}'
  }

  predicate IsDigit(c: char) { '0' <= c <= '9' }

  predicate IsUpper(c: char) { 'A' <= c <= 'Z' }

  predicate AllDigits(s: string) {
    forall i :: 0 <= i < |s| ==> IsDigit(s[i])
  }

  predicate NoWhitespace(s: string) {
    forall i :: 0 <= i < |s| ==> !IsWhitespace(s[i])
  }

  function UpperAscii(c: char): char {
    if 'a' <= c <= 'z' then (c as int - 32) as char else c
  }

  /** Equality after upper-casing ASCII letters: what `/…/i` and `toUpperCase() === …`
      amount to for the ASCII literals the source compares against. */
  predicate EqualsIgnoreCase(a: string, b: string) {
    |a| == |b| && forall i :: 0 <= i < |a| ==> UpperAscii(a[i]) == UpperAscii(b[i])
  }

  // ---------------------------------------------------------------- trim

  function TrimStart(s: string): (r: string)
    ensures |r| <= |s| && r == s[|s| - |r|..]
    ensures r == [] || !IsWhitespace(r[0])
    ensures forall i :: 0 <= i < |s| - |r| ==> IsWhitespace(s[i])
  {
    if s != [] && IsWhitespace(s[0]) then TrimStart(s[1..]) else s
  }

  function TrimEnd(s: string): (r: string)
    ensures |r| <= |s| && r == s[..|r|]
    ensures r == [] || !IsWhitespace(r[|r| - 1])
    ensures forall i :: |r| <= i < |s| ==> IsWhitespace(s[i])
  {
    if s != [] && IsWhitespace(s[|s| - 1]) then TrimEnd(s[..|s| - 1]) else s
  }

  /** `String.prototype.trim`. */
  function Trim(s: string): (r: string)
    ensures r == [] || (!IsWhitespace(r[0]) && !IsWhitespace(r[|r| - 1]))
    ensures exists k: nat :: OccursAt(s, r, k)
  {
    var t := TrimStart(s);
    var r := TrimEnd(t);
    assert OccursAt(s, r, |s| - |t|);
    r
  }

  lemma TrimIdempotent(s: string)
    ensures Trim(Trim(s)) == Trim(s)
  {
    var r := Trim(s);
    assert TrimStart(r) == r;
  }

  // ---------------------------------------------------------------- runs

  /** Length of the run of white space that starts at `i`. */
  function WsRun(s: string, i: nat): (n: nat)
    ensures i + n <= |s| || n == 0
    ensures forall k :: i <= k < i + n ==> IsWhitespace(s[k])
    ensures i + n < |s| ==> !IsWhitespace(s[i + n])
    decreases |s| - i
  {
    if i < |s| && IsWhitespace(s[i]) then 1 + WsRun(s, i + 1) else 0
  }

  /** Length of the run of ASCII digits that starts at `i`. */
  function DigitRun(s: string, i: nat): (n: nat)
    ensures i + n <= |s| || n == 0
    ensures forall k :: i <= k < i + n ==> IsDigit(s[k])
    ensures i + n < |s| ==> !IsDigit(s[i + n])
    decreases |s| - i
  {
    if i < |s| && IsDigit(s[i]) then 1 + DigitRun(s, i + 1) else 0
  }

  /** Length of the run of ASCII capital letters that starts at `i`. */
  function UpperRun(s: string, i: nat): (n: nat)
    ensures i + n <= |s| || n == 0
    ensures forall k :: i <= k < i + n ==> IsUpper(s[k])
    ensures i + n < |s| ==> !IsUpper(s[i + n])
    decreases |s| - i
  {
    if i < |s| && IsUpper(s[i]) then 1 + UpperRun(s, i + 1) else 0
  }

  // ---------------------------------------------------------------- replace

  /** `s.replace(/\s/g, '')`. */
  function RemoveWhitespace(s: string): (r: string)
    ensures NoWhitespace(r)
    ensures |r| <= |s|
    ensures NoWhitespace(s) ==> r == s
  {
    if s == [] then []
    else if IsWhitespace(s[0]) then RemoveWhitespace(s[1..])
    else [s[0]] + RemoveWhitespace(s[1..])
  }

  /** `s.replace(/\s+/g, '-')`: every maximal run of white space becomes one hyphen. */
  function HyphenateWhitespace(s: string): (r: string)
    ensures NoWhitespace(r)
    ensures |r| <= |s|
    ensures s != [] ==> r != []
    ensures NoWhitespace(s) ==> r == s
    decreases |s|
  {
    if s == [] then []
    else if IsWhitespace(s[0]) then
      var n := WsRun(s, 0);
      "-" + HyphenateWhitespace(s[n..])
    else [s[0]] + HyphenateWhitespace(s[1..])
  }

  /** Hyphenating twice is hyphenating once. */
  lemma HyphenateIdempotent(s: string)
    ensures HyphenateWhitespace(HyphenateWhitespace(s)) == HyphenateWhitespace(s)
  {
  }

  /** A run of white space between two words collapses to a single hyphen, however long it is. */
  lemma {:induction false} HyphenateJoinsWords(a: string, ws: string, b: string)
    requires NoWhitespace(a) && NoWhitespace(b) && ws != []
    requires forall i :: 0 <= i < |ws| ==> IsWhitespace(ws[i])
    ensures HyphenateWhitespace(a + ws + b) == a + "-" + b
  {
    if a == [] {
      var s := ws + b;
      assert a + ws + b == s;
      assert s[0] == ws[0];
      WsRunOfPrefix(ws, b);
      assert s[|ws|..] == b;
    } else {
      assert (a + ws + b)[0] == a[0];
      assert (a + ws + b)[1..] == a[1..] + ws + b;
      HyphenateJoinsWords(a[1..], ws, b);
    }
  }

  lemma {:induction false} WsRunOfPrefix(ws: string, b: string)
    requires forall i :: 0 <= i < |ws| ==> IsWhitespace(ws[i])
    requires b == [] || !IsWhitespace(b[0])
    ensures WsRun(ws + b, 0) == |ws|
  {
    WsRunOfPrefixFrom(ws, b, 0);
  }

  lemma {:induction false} WsRunOfPrefixFrom(ws: string, b: string, i: nat)
    requires i <= |ws|
    requires forall i :: 0 <= i < |ws| ==> IsWhitespace(ws[i])
    requires b == [] || !IsWhitespace(b[0])
    ensures WsRun(ws + b, i) == |ws| - i
    decreases |ws| - i
  {
    var s := ws + b;
    if i == |ws| {
      if b != [] { assert s[i] == b[0]; }
    } else {
      assert s[i] == ws[i];
      WsRunOfPrefixFrom(ws, b, i + 1);
    }
  }

  // ---------------------------------------------------------------- includes

  predicate OccursAt(s: string, sub: string, i: nat) {
    i + |sub| <= |s| && s[i..i + |sub|] == sub
  }

  /** `s.includes(sub)`. */
  function Includes(s: string, sub: string): (b: bool)
    ensures b <==> exists i: nat :: OccursAt(s, sub, i)
    decreases |s|
  {
    if OccursAt(s, sub, 0) then true
    else if |s| <= |sub| then
      false
    else
      var r := Includes(s[1..], sub);
      assert forall i: nat :: OccursAt(s[1..], sub, i) <==> OccursAt(s, sub, i + 1) by {
        forall i: nat ensures OccursAt(s[1..], sub, i) <==> OccursAt(s, sub, i + 1) {
          if i + 1 + |sub| <= |s| { assert s[1..][i..i + |sub|] == s[i + 1..i + 1 + |sub|]; }
        }
      }
      assert (exists i: nat :: OccursAt(s, sub, i)) ==> exists i: nat :: OccursAt(s[1..], sub, i) by {
        if i: nat :| OccursAt(s, sub, i) { assert i > 0 && OccursAt(s[1..], sub, i - 1); }
      }
      r
  }

  // ---------------------------------------------------------------- split / join

  /** `s.split(sep)` for a one-character separator: the pieces between the separators, always at least one. */
  function Split(s: string, sep: char): (parts: seq<string>)
    ensures |parts| >= 1
    ensures forall k :: 0 <= k < |parts| ==> sep !in parts[k]
    decreases |s|
  {
    if s == [] then [[]]
    else
      var rest := Split(s[1..], sep);
      if s[0] == sep then [[]] + rest
      else [[s[0]] + rest[0]] + rest[1..]
  }

  /** `parts.join(sep)`. */
  function Join(parts: seq<string>, sep: string): (r: string)
  {
    if parts == [] then []
    else if |parts| == 1 then parts[0]
    else parts[0] + sep + Join(parts[1..], sep)
  }

  /** `parts.join('')`. */
  function Concat(parts: seq<string>): (r: string)
    ensures |parts| == 0 ==> r == []
  {
    if parts == [] then [] else parts[0] + Concat(parts[1..])
  }

  lemma {:induction false} SplitNoSeparator(x: string, sep: char)
    requires sep !in x
    ensures Split(x, sep) == [x]
    decreases |x|
  {
    if x != [] {
      SplitNoSeparator(x[1..], sep);
      assert [x[0]] + x[1..] == x;
    }
  }

  lemma {:induction false} SplitAfterPiece(x: string, sep: char, rest: string)
    requires sep !in x
    ensures Split(x + [sep] + rest, sep) == [x] + Split(rest, sep)
    decreases |x|
  {
    var s := x + [sep] + rest;
    if x == [] {
      assert s[0] == sep && s[1..] == rest;
    } else {
      assert s[0] == x[0] && s[1..] == x[1..] + [sep] + rest;
      SplitAfterPiece(x[1..], sep, rest);
      assert [x[0]] + x[1..] == x;
    }
  }

  /** Splitting a join recovers the pieces, as long as no piece contains the separator. */
  lemma {:induction false} SplitJoin(parts: seq<string>, sep: char)
    requires |parts| >= 1
    requires forall k :: 0 <= k < |parts| ==> sep !in parts[k]
    ensures Split(Join(parts, [sep]), sep) == parts
    decreases |parts|
  {
    if |parts| == 1 {
      SplitNoSeparator(parts[0], sep);
    } else {
      SplitJoin(parts[1..], sep);
      SplitAfterPiece(parts[0], sep, Join(parts[1..], [sep]));
      assert [parts[0]] + parts[1..] == parts;
    }
  }

  // ---------------------------------------------------------------- numbers

  /** A JavaScript number, restricted to the integers and NaN that this program produces. */
  datatype Num = Int(v: int) | NaN

  function DigitChar(d: nat): (c: char)
    requires d < 10
    ensures IsDigit(c)
  {
    ('0' as int + d) as char
  }

  function DigitValue(c: char): (d: nat)
    requires IsDigit(c)
    ensures d < 10 && DigitChar(d) == c
  {
    c as int - '0' as int
  }

  /** The value of a string of decimal digits. */
  function DigitsValue(s: string): (n: nat)
    requires AllDigits(s)
    decreases |s|
  {
    if s == [] then 0 else DigitsValue(s[..|s| - 1]) * 10 + DigitValue(s[|s| - 1])
  }

  /** `n.toString()` for a natural number. */
  function NatToString(n: nat): (s: string)
    ensures s != [] && AllDigits(s)
    ensures n < 10 <==> |s| == 1
    ensures 10 <= n < 100 <==> |s| == 2
    ensures 1000 <= n < 10000 ==> |s| == 4
  {
    if n < 10 then [DigitChar(n)] else NatToString(n / 10) + [DigitChar(n % 10)]
  }

  /** Reading back a number that was printed gives the number. */
  lemma {:induction false} NatToStringRoundTrip(n: nat)
    ensures DigitsValue(NatToString(n)) == n
  {
    if n >= 10 {
      NatToStringRoundTrip(n / 10);
      var s := NatToString(n);
      assert s[..|s| - 1] == NatToString(n / 10);
    }
  }

  lemma NatToStringInjective(a: nat, b: nat)
    requires NatToString(a) == NatToString(b)
    ensures a == b
  {
    NatToStringRoundTrip(a);
    NatToStringRoundTrip(b);
  }

  /** `x.toString()` for a number of this model. */
  function NumToString(x: Num): (s: string)
    ensures x.Int? && x.v >= 0 ==> s == NatToString(x.v)
    ensures x.NaN? ==> s == "NaN"
  {
    match x
    case NaN => "NaN"
    case Int(v) => if v < 0 then "-" + NatToString(-v) else NatToString(v)
  }

  /** `s.padStart(2, '0')`. */
  function PadStart2(s: string): (r: string)
    ensures |s| >= 2 ==> r == s
    ensures |s| < 2 ==> |r| == 2 && r[2 - |s|..] == s && forall i :: 0 <= i < 2 - |s| ==> r[i] == '0'
  {
    if |s| >= 2 then s else if |s| == 1 then "0" + s else "00"
  }

  /** `Number(s)` for the strings this program hands it: the empty string is 0, a run
      of ASCII digits is its value, anything else is NaN. */
  function NumberOf(s: string): (x: Num)
    ensures s == [] ==> x == Int(0)
    ensures s != [] && AllDigits(s) ==> x == Int(DigitsValue(s))
    ensures !AllDigits(s) ==> x == NaN
  {
    if AllDigits(s) then Int(DigitsValue(s)) else NaN
  }

  /** `parseInt(s)` without a radix: leading white space, an optional sign, then the
      longest run of decimal digits; NaN when there is none. */
  function ParseInt(s: string): (x: Num)
    ensures AllDigits(s) && s != [] ==> x == Int(DigitsValue(s))
    ensures s == [] ==> x == NaN
  {
    var i := WsRun(s, 0);
    var neg := i < |s| && s[i] == '-';
    var j := if i < |s| && (s[i] == '-' || s[i] == '+') then i + 1 else i;
    var n := DigitRun(s, j);
    if n == 0 then NaN
    else
      assert AllDigits(s) && s != [] ==> i == 0 && j == 0 && n == |s| && s[j..j + n] == s;
      var v := DigitsValue(s[j..j + n]);
      Int(if neg then -(v as int) else v)
  }

  /** Printing a number and reading it back, through either `Number` or `parseInt`. */
  lemma NumberOfNatToString(n: nat)
    ensures NumberOf(NatToString(n)) == Int(n)
    ensures ParseInt(NatToString(n)) == Int(n)
  {
    NatToStringRoundTrip(n);
  }

  lemma {:induction false} DigitsValueLeadingZero(s: string)
    requires AllDigits(s)
    ensures DigitsValue("0" + s) == DigitsValue(s)
    decreases |s|
  {
    if s != [] {
      var t := "0" + s;
      assert t[..|t| - 1] == "0" + s[..|s| - 1];
      DigitsValueLeadingZero(s[..|s| - 1]);
    }
  }

  /** Padding a printed number with zeros does not change the number it reads as. */
  lemma PaddedRoundTrip(n: nat)
    ensures AllDigits(PadStart2(NatToString(n)))
    ensures NumberOf(PadStart2(NatToString(n))) == Int(n)
  {
    var s := NatToString(n);
    NatToStringRoundTrip(n);
    if |s| < 2 {
      DigitsValueLeadingZero(s);
      assert PadStart2(s) == "0" + s;
    }
  }
}
