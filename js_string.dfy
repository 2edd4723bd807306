/**
 * The string handling the page relies on: `String.prototype.trim`, the digit filter
 * `replace(/\D/g, '')`, decimal rendering of integers (template literals and
 * `toString`) and `parseInt(s) || 0` on the strings the inputs can hold.
 */
module JsString {

  /** `\d` of a JavaScript regular expression: an ASCII digit. */
  predicate IsDigit(c: char) {
    '0' <= c <= '9'
  }

  predicate AllDigits(s: string) {
    forall i :: 0 <= i < |s| ==> IsDigit(s[i])
  }

  /** `s.replace(/\D/g, '')`: keep the digits, in order, drop everything else. */
  function DigitsOnly(s: string): (r: string)
    ensures AllDigits(r)
    ensures |r| <= |s|
    ensures AllDigits(s) ==> r == s
  {
    if s == [] then []
    else
      assert s == [s[0]] + s[1..];
      if IsDigit(s[0]) then [s[0]] + DigitsOnly(s[1..]) else DigitsOnly(s[1..])
  }

  /** Every digit of the input survives the filter, as often as it occurs, and nothing else does. */
  lemma {:induction false} DigitsOnlyCounts(s: string)
    ensures forall c :: multiset(DigitsOnly(s))[c] == if IsDigit(c) then multiset(s)[c] else 0
    ensures multiset(DigitsOnly(s)) <= multiset(s)
  {
    if s != [] {
      DigitsOnlyCounts(s[1..]);
      assert s == [s[0]] + s[1..];
    }
  }

  /** The filter works character by character: the digits of a concatenation are the digits of each part, in order. */
  lemma {:induction false} DigitsOnlyConcat(a: string, b: string)
    ensures DigitsOnly(a + b) == DigitsOnly(a) + DigitsOnly(b)
  {
    if a == [] {
      assert a + b == b;
    } else {
      var ab := a + b;
      assert ab[0] == a[0] && ab[1..] == a[1..] + b;
      DigitsOnlyConcat(a[1..], b);
      if IsDigit(a[0]) {
        assert DigitsOnly(ab) == [a[0]] + DigitsOnly(a[1..] + b);
        assert DigitsOnly(a) == [a[0]] + DigitsOnly(a[1..]);
      } else {
        assert DigitsOnly(ab) == DigitsOnly(a[1..] + b);
        assert DigitsOnly(a) == DigitsOnly(a[1..]);
      }
    }
  }

  /** The characters `trim` removes: WhiteSpace and LineTerminator of ECMAScript. */
  const TrimmableChars: set<char> := {
    '\t', '\n', '\U{000B}', '\U{000C}', '\r', ' ', '\U{00A0}', '\U{1680}',
    '\U{2000}', '\U{2001}', '\U{2002}', '\U{2003}', '\U{2004}', '\U{2005}',
    '\U{2006}', '\U{2007}', '\U{2008}', '\U{2009}', '\U{200A}',
    '\U{2028}', '\U{2029}', '\U{202F}', '\U{205F}', '\U{3000}', '\U{FEFF}'
  }

  predicate IsTrimmable(c: char) {
    c in TrimmableChars
  }

  predicate AllTrimmable(s: string) {
    forall i :: 0 <= i < |s| ==> IsTrimmable(s[i])
  }

  /** How many characters of white space `s` starts with. */
  function LeadingBlanks(s: string): (n: nat)
    ensures n <= |s|
    ensures forall i :: 0 <= i < n ==> IsTrimmable(s[i])
    ensures n < |s| ==> !IsTrimmable(s[n])
  {
    if s == [] || !IsTrimmable(s[0]) then 0 else 1 + LeadingBlanks(s[1..])
  }

  /** How many characters of white space `s` ends with. */
  function TrailingBlanks(s: string): (n: nat)
    ensures n <= |s|
    ensures forall i :: |s| - n <= i < |s| ==> IsTrimmable(s[i])
    ensures n < |s| ==> !IsTrimmable(s[|s| - n - 1])
  {
    if s == [] || !IsTrimmable(s[|s| - 1]) then 0 else 1 + TrailingBlanks(s[..|s| - 1])
  }

  /** `s.trimStart()`: what is left starts with no white space. */
  function TrimStart(s: string): (r: string)
    ensures |r| == |s| - LeadingBlanks(s)
    ensures s == s[..LeadingBlanks(s)] + r
    ensures r == [] || !IsTrimmable(r[0])
  {
    s[LeadingBlanks(s)..]
  }

  /** `s.trimEnd()`: what is left ends with no white space. */
  function TrimEnd(s: string): (r: string)
    ensures |r| == |s| - TrailingBlanks(s)
    ensures s == r + s[|s| - TrailingBlanks(s)..]
    ensures r == [] || !IsTrimmable(r[|r| - 1])
  {
    s[..|s| - TrailingBlanks(s)]
  }

  /** `s.trim()`: what lies between the leading and the trailing white space. */
  function Trim(s: string): (r: string)
    ensures LeadingBlanks(s) + |r| <= |s|
    ensures r == s[LeadingBlanks(s)..LeadingBlanks(s) + |r|]
    ensures AllTrimmable(s[LeadingBlanks(s) + |r|..])
  {
    var t := TrimStart(s);
    var r := TrimEnd(t);
    assert t == s[LeadingBlanks(s)..];
    r
  }

  /** `s.trim()` has no white space left at either end. */
  lemma TrimEnds(s: string)
    ensures var r := Trim(s); r == [] || (!IsTrimmable(r[0]) && !IsTrimmable(r[|r| - 1]))
  {
    var t := TrimStart(s);
    var r := TrimEnd(t);
    if r != [] {
      assert r[0] == t[0];
    }
  }

  /** `!s.trim()` holds exactly when `s` is nothing but white space. */
  lemma TrimEmptyIffBlank(s: string)
    ensures Trim(s) == [] <==> AllTrimmable(s)
  {
    var a := LeadingBlanks(s);
    var t := TrimStart(s);
    if Trim(s) == [] {
      assert TrailingBlanks(t) == |t|;
      assert t == [];
    }
    if AllTrimmable(s) {
      assert a == |s|;
    }
  }

  /** Trimming twice changes nothing more. */
  lemma TrimIdempotent(s: string)
    ensures Trim(Trim(s)) == Trim(s)
  {
    var r := Trim(s);
    TrimEnds(s);
    assert LeadingBlanks(r) == 0;
    assert r[0..] == r;
    assert TrailingBlanks(r) == 0;
  }

  function DigitChar(d: nat): (c: char)
    requires d < 10
    ensures IsDigit(c)
  {
    ['0', '1', '2', '3', '4', '5', '6', '7', '8', '9'][d]
  }

  function DigitValue(c: char): (d: nat)
    requires IsDigit(c)
    ensures d < 10 && DigitChar(d) == c
  {
    (c as int - '0' as int)
  }

  /** The decimal rendering of a natural number, as `${n}` or `n.toString()` give it. */
  function DecimalString(n: nat): (s: string)
    ensures |s| >= 1 && AllDigits(s)
    ensures s[0] == '0' ==> n == 0
    ensures n == 0 ==> s == "0"
    decreases n
  {
    if n < 10 then [DigitChar(n)] else DecimalString(n / 10) + [DigitChar(n % 10)]
  }

  /** The number a digit string denotes (leading zeros allowed, the empty string gives 0). */
  function DecimalValue(s: string): nat
    requires AllDigits(s)
  {
    if s == [] then 0 else DecimalValue(s[..|s| - 1]) * 10 + DigitValue(s[|s| - 1])
  }

  /** Rendering then reading back gives the number: decimal rendering is injective. */
  lemma {:induction false} DecimalRoundTrip(n: nat)
    ensures DecimalValue(DecimalString(n)) == n
    decreases n
  {
    var s := DecimalString(n);
    if n < 10 {
      assert s[..|s| - 1] == [];
    } else {
      DecimalRoundTrip(n / 10);
      assert s[..|s| - 1] == DecimalString(n / 10);
    }
  }

  /** `n.toString()` for an integer of either sign. */
  function IntString(n: int): (s: string)
    ensures |s| >= 1
    ensures s[0] == '-' <==> n < 0
    ensures n >= 0 ==> AllDigits(s) && (s[0] == '0' ==> n == 0)
    ensures n == 0 ==> s == "0"
    ensures n < 0 ==> |s| >= 2 && AllDigits(s[1..]) && s[1] != '0'
  {
    if n < 0 then "-" + DecimalString(-n) else DecimalString(n)
  }

  /** The strings a discount text field can hold: digits, or the rendering of a negative integer. */
  predicate IsIntText(s: string) {
    AllDigits(s) || (|s| >= 1 && s[0] == '-' && AllDigits(s[1..]))
  }

  /**
   * `parseInt(s) || 0` on such a string: `parseInt` gives NaN for "" and "-", and NaN,
   * like -0, is falsy, so both become 0.
   */
  function ParseIntOrZero(s: string): (n: int)
    requires IsIntText(s)
    ensures AllDigits(s) ==> n >= 0
    ensures s == "" ==> n == 0
  {
    if AllDigits(s) then DecimalValue(s)
    else -(DecimalValue(s[1..]) as int)
  }

  /** Reading a rendered integer back gives the integer: the discount shown in an edit field survives an untouched commit. */
  lemma ParseIntOrZeroRoundTrip(n: int)
    ensures IsIntText(IntString(n))
    ensures ParseIntOrZero(IntString(n)) == n
  {
    if n < 0 {
      DecimalRoundTrip(-n);
      ParseNegative(DecimalString(-n));
    } else {
      DecimalRoundTrip(n);
    }
  }

  /** A digit field read with leading zeros, as typed after the "0" the new-keyword field starts with, gives the number typed. */
  lemma ParseIntOrZeroLeadingZeros(zeros: string, n: nat)
    requires forall i :: 0 <= i < |zeros| ==> zeros[i] == '0'
    ensures IsIntText(zeros + DecimalString(n))
    ensures ParseIntOrZero(zeros + DecimalString(n)) == n
  {
    DecimalValueLeadingZeros(zeros, DecimalString(n));
    DecimalRoundTrip(n);
  }

  /** Zeros in front do not change the value of a digit string. */
  lemma {:induction false} DecimalValueLeadingZeros(zeros: string, d: string)
    requires forall i :: 0 <= i < |zeros| ==> zeros[i] == '0'
    requires AllDigits(d)
    ensures AllDigits(zeros + d)
    ensures DecimalValue(zeros + d) == DecimalValue(d)
    decreases |d|
  {
    var s := zeros + d;
    if d == [] {
      assert s == zeros;
      ZerosValue(zeros);
    } else {
      DecimalValueLeadingZeros(zeros, d[..|d| - 1]);
      assert s[..|s| - 1] == zeros + d[..|d| - 1];
    }
  }

  /** A run of zeros denotes 0. */
  lemma {:induction false} ZerosValue(zeros: string)
    requires forall i :: 0 <= i < |zeros| ==> zeros[i] == '0'
    ensures AllDigits(zeros) && DecimalValue(zeros) == 0
  {
    if zeros != [] {
      ZerosValue(zeros[..|zeros| - 1]);
    }
  }

  /** A minus sign followed by digits reads as the negated value of the digits. */
  lemma ParseNegative(d: string)
    requires AllDigits(d)
    ensures IsIntText("-" + d)
    ensures ParseIntOrZero("-" + d) == -(DecimalValue(d) as int)
  {
    var s := "-" + d;
    assert s[1..] == d;
    assert !IsDigit(s[0]);
  }

  /** The channel id `addNewChannel` tries for a counter value: `channel-${counter}`. */
  function ChannelName(n: nat): string {
    "channel-" + DecimalString(n)
  }

  /** The counter a generated channel id was made from, -1 for any other string. */
  function ChannelIndex(s: string): int {
    if |s| > 8 && s[..8] == "channel-" && AllDigits(s[8..]) then DecimalValue(s[8..]) else -1
  }

  /** Every generated channel id names its own counter, so different counters give different ids. */
  lemma ChannelIndexOfName(n: nat)
    ensures ChannelIndex(ChannelName(n)) == n
  {
    var s := ChannelName(n);
    assert s[..8] == "channel-";
    assert s[8..] == DecimalString(n);
    DecimalRoundTrip(n);
  }
}
