/**
 * The few JavaScript string operations the application relies on, written
 * out with their ECMAScript meaning: the white-space set that `trim` and
 * `parseInt` skip, `split` on one character, `parseInt(s, 10)`, ASCII
 * upper-casing and the decimal text of a count.
 */
module JsText {

  /** A JavaScript number as `parseInt` can produce it: an integer or NaN. */
  datatype JsNumber = Num(value: int) | NaN

  /** The WhiteSpace and LineTerminator characters of ECMAScript. */
  predicate IsJsSpace(c: char) {
    || c == '\t' || c == '\n' || c == '\U{000B}' || c == '\U{000C}' || c == '\r' || c == ' '
    || c == '\U{00A0}' || c == '\U{1680}' || ('\U{2000}' <= c <= '\U{200A}')
    || c == '\U{2028}' || c == '\U{2029}' || c == '\U{202F}' || c == '\U{205F}'
    || c == '\U{3000}' || c == '\U{FEFF}'
  }

  predicate IsDigit(c: char) { '0' <= c <= '9' }

  predicate AllDigits(s: string) { forall i :: 0 <= i < |s| ==> IsDigit(s[i]) }

  /** The number of white-space characters `s` starts with. */
  function LeadingSpaces(s: string): (n: nat)
    ensures n <= |s|
    ensures forall i :: 0 <= i < n ==> IsJsSpace(s[i])
    ensures n == |s| || !IsJsSpace(s[n])
  {
    if s != [] && IsJsSpace(s[0]) then 1 + LeadingSpaces(s[1..]) else 0
  }

  /** The length of `s` without its trailing white space. */
  function TextEnd(s: string): (n: nat)
    ensures n <= |s|
    ensures forall i :: n <= i < |s| ==> IsJsSpace(s[i])
    ensures n == 0 || !IsJsSpace(s[n - 1])
  {
    if s != [] && IsJsSpace(s[|s| - 1]) then TextEnd(s[..|s| - 1]) else |s|
  }

  /** `s.trimStart()`: the suffix left once the leading white space is gone. */
  function TrimStart(s: string): string {
    s[LeadingSpaces(s)..]
  }

  /** `s.trimEnd()`: the prefix left once the trailing white space is gone. */
  function TrimEnd(s: string): string {
    s[..TextEnd(s)]
  }

  /** `s.trim()`: the slice of `s` between its leading and trailing white space. */
  function Trim(s: string): (r: string)
    ensures var k := |s| - |TrimStart(s)|; k + |r| <= |s| && r == s[k..k + |r|]
    ensures var k := |s| - |TrimStart(s)|; forall i :: 0 <= i < k ==> IsJsSpace(s[i])
    ensures var k := |s| - |TrimStart(s)|; forall i :: k + |r| <= i < |s| ==> IsJsSpace(s[i])
    ensures r == [] || (!IsJsSpace(r[0]) && !IsJsSpace(r[|r| - 1]))
    ensures (forall i :: 0 <= i < |s| ==> IsJsSpace(s[i])) <==> r == []
  {
    TrimEnd(TrimStart(s))
  }

  /** `s.split(sep)` for a one-character separator: never empty, as in JavaScript. */
  function Split(s: string, sep: char): (parts: seq<string>)
    ensures |parts| >= 1
    ensures forall i :: 0 <= i < |parts| ==> sep !in parts[i]
  {
    if s == [] then [[]]
    else
      var rest := Split(s[1..], sep);
      if s[0] == sep then [[]] + rest
      else [[s[0]] + rest[0]] + rest[1..]
  }

  /** `parts.join(sep)`. */
  function Join(parts: seq<string>, sep: char): string
    requires |parts| >= 1
  {
    if |parts| == 1 then parts[0] else parts[0] + [sep] + Join(parts[1..], sep)
  }

  /** Joining the pieces of a split with the same separator gives the text back. */
  lemma {:induction false} JoinSplit(s: string, sep: char)
    ensures Join(Split(s, sep), sep) == s
  {
    if s != [] {
      JoinSplit(s[1..], sep);
      var rest := Split(s[1..], sep);
      if s[0] == sep {
        assert ([[]] + rest)[1..] == rest;
      } else {
        var parts := [[s[0]] + rest[0]] + rest[1..];
        if |rest| > 1 {
          assert parts[1..] == rest[1..];
          assert Join(rest, sep) == rest[0] + [sep] + Join(rest[1..], sep);
        }
      }
    }
  }

  /** `s.split(sep)[0]`: the text before the first `sep`, or all of `s`. */
  function FirstPiece(s: string, sep: char): (r: string)
    ensures |r| <= |s| && r == s[..|r|] && sep !in r
    ensures |r| < |s| ==> s[|r|] == sep
  {
    if s == [] || s[0] == sep then [] else [s[0]] + FirstPiece(s[1..], sep)
  }

  lemma {:induction false} SplitFirstIsFirstPiece(s: string, sep: char)
    ensures Split(s, sep)[0] == FirstPiece(s, sep)
  {
    if s != [] && s[0] != sep {
      SplitFirstIsFirstPiece(s[1..], sep);
    }
  }

  function DigitValue(c: char): nat
    requires IsDigit(c)
  {
    (c as int) - ('0' as int)
  }

  /** The value of a string of decimal digits, most significant first. */
  function DigitsValue(d: string): nat
    requires AllDigits(d)
  {
    if d == [] then 0 else DigitsValue(d[..|d| - 1]) * 10 + DigitValue(d[|d| - 1])
  }

  /** The longest prefix of `s` made of decimal digits. */
  function LeadingDigits(s: string): (d: string)
    ensures |d| <= |s| && d == s[..|d|] && AllDigits(d)
    ensures |d| == |s| || !IsDigit(s[|d|])
  {
    if s != [] && IsDigit(s[0]) then [s[0]] + LeadingDigits(s[1..]) else []
  }

  /** The text after one optional leading sign character. */
  function Unsigned(t: string): string {
    if t != [] && (t[0] == '+' || t[0] == '-') then t[1..] else t
  }

  /**
   * `parseInt(s, 10)`: skip leading white space, take one optional `+` or
   * `-`, then as many decimal digits as follow; no digits gives NaN and
   * whatever follows the digits is ignored.
   */
  function ParseInt(s: string): (n: JsNumber)
    ensures '-' !in s && n.Num? ==> n.value >= 0
  {
    var t := TrimStart(s);
    assert t != [] ==> t[0] == s[|s| - |t|];
    ParseSigned(t)
  }

  /** `parseInt` once the leading white space is gone. */
  function ParseSigned(t: string): (n: JsNumber)
    ensures (t == [] || t[0] != '-') && n.Num? ==> n.value >= 0
  {
    var d := LeadingDigits(Unsigned(t));
    if d == [] then NaN
    else if t[0] == '-' then Num(-(DigitsValue(d) as int))
    else Num(DigitsValue(d))
  }

  lemma {:induction false} LeadingDigitsOf(d: string, tail: string)
    requires AllDigits(d)
    requires tail == [] || !IsDigit(tail[0])
    ensures LeadingDigits(d + tail) == d
  {
    if d != [] {
      assert (d + tail)[1..] == d[1..] + tail;
      LeadingDigitsOf(d[1..], tail);
    } else {
      assert d + tail == tail;
    }
  }

  /** Decimal digits followed by anything that is not a digit parse to their value. */
  lemma ParseIntOfDigits(d: string, tail: string)
    requires d != [] && AllDigits(d)
    requires tail == [] || !IsDigit(tail[0])
    ensures ParseInt(d + tail) == Num(DigitsValue(d))
  {
    var s := d + tail;
    assert s[0] == d[0] && IsDigit(s[0]);
    assert !IsJsSpace(s[0]) && s[0] != '+' && s[0] != '-';
    TrimStartSkips([], s);
    assert [] + s == s;
    assert Unsigned(s) == s;
    LeadingDigitsOf(d, tail);
    assert ParseSigned(s) == Num(DigitsValue(d));
  }

  /** Leading white space makes no difference to `parseInt`. */
  lemma ParseIntSkipsSpace(space: string, s: string)
    requires forall i :: 0 <= i < |space| ==> IsJsSpace(space[i])
    requires s == [] || !IsJsSpace(s[0])
    ensures ParseInt(space + s) == ParseInt(s)
  {
    TrimStartSkips(space, s);
    TrimStartSkips([], s);
    assert [] + s == s;
    assert ParseInt(space + s) == ParseSigned(s);
  }

  /** One leading `+` makes no difference to `parseInt`. */
  lemma ParseIntSkipsPlus(s: string)
    requires s == [] || (!IsJsSpace(s[0]) && s[0] != '+' && s[0] != '-')
    ensures ParseInt("+" + s) == ParseInt(s)
  {
    var p := "+" + s;
    assert p[0] == '+' && !IsJsSpace(p[0]);
    assert LeadingSpaces(p) == 0;
    assert TrimStart(p) == p;
    assert Unsigned(p) == s;
    assert ParseInt(p) == ParseSigned(p);
    assert LeadingSpaces(s) == 0;
    assert TrimStart(s) == s;
    assert Unsigned(s) == s;
    assert ParseSigned(p) == ParseSigned(s);
  }

  lemma {:induction false} TrimStartSkips(space: string, s: string)
    requires forall i :: 0 <= i < |space| ==> IsJsSpace(space[i])
    requires s == [] || !IsJsSpace(s[0])
    ensures TrimStart(space + s) == s
  {
    if space == [] {
      assert space + s == s;
    } else {
      assert (space + s)[1..] == space[1..] + s;
      TrimStartSkips(space[1..], s);
    }
  }

  function DigitChar(k: nat): (c: char)
    requires k < 10
    ensures IsDigit(c) && DigitValue(c) == k
  {
    ('0' as int + k) as char
  }

  /** The decimal text of a count, as a template literal writes it. */
  function NatToString(n: nat): (s: string)
    ensures s != [] && AllDigits(s)
    ensures DigitsValue(s) == n
    ensures n > 0 ==> s[0] != '0'
  {
    if n < 10 then [DigitChar(n)]
    else
      var p := NatToString(n / 10);
      var s := p + [DigitChar(n % 10)];
      assert s[..|s| - 1] == p;
      s
  }

  /** `toUpperCase` on one character, for the ASCII letters. */
  function UpperChar(c: char): char {
    if 'a' <= c <= 'z' then ((c as int) - 32) as char else c
  }

  function Upper(s: string): (r: string)
    ensures |r| == |s|
    ensures forall i :: 0 <= i < |s| ==> r[i] == UpperChar(s[i])
  {
    if s == [] then [] else [UpperChar(s[0])] + Upper(s[1..])
  }

  predicate StartsWith(s: string, prefix: string) {
    |prefix| <= |s| && s[..|prefix|] == prefix
  }

  predicate EndsWith(s: string, suffix: string) {
    |suffix| <= |s| && s[|s| - |suffix|..] == suffix
  }
}
