/** The few pieces of JavaScript's string semantics the core relies on: decimal
    rendering of numbers, `parseInt` with no radix, white space and `trim`, and `join`. */
module JsText {
  import opened Wrappers

  predicate IsDigit(c: char) {
    '0' <= c <= '9'
  }

  predicate AllDigits(s: string) {
    forall i :: 0 <= i < |s| ==> IsDigit(s[i])
  }

  function DigitChar(d: nat): (c: char)
    requires d < 10
    ensures IsDigit(c)
  {
    ('0' as int + d) as char
  }

  function DigitValue(c: char): (d: nat)
    requires IsDigit(c)
    ensures d < 10
  {
    c as int - '0' as int
  }

  /** The decimal text of a natural number, as `String(n)` writes it. */
  function NatToDecimal(n: nat): (s: string)
    ensures |s| >= 1 && AllDigits(s)
    ensures |s| > 1 ==> s[0] != '0'
  {
    if n < 10 then [DigitChar(n)] else NatToDecimal(n / 10) + [DigitChar(n % 10)]
  }

  /** The number a string of decimal digits denotes. */
  function DecimalValue(s: string): nat
    requires AllDigits(s)
  {
    if |s| == 0 then 0 else DecimalValue(s[..|s| - 1]) * 10 + DigitValue(s[|s| - 1])
  }

  /** Reading back the decimal text of `n` gives `n`. */
  lemma {:induction false} DecimalRoundTrip(n: nat)
    ensures DecimalValue(NatToDecimal(n)) == n
  {
    if n >= 10 {
      var s := NatToDecimal(n);
      assert s[..|s| - 1] == NatToDecimal(n / 10);
      DecimalRoundTrip(n / 10);
    }
  }

  /** Distinct numbers have distinct decimal texts. */
  lemma {:induction false} NatToDecimalInjective(m: nat, n: nat)
    requires NatToDecimal(m) == NatToDecimal(n)
    ensures m == n
  {
    DecimalRoundTrip(m);
    DecimalRoundTrip(n);
  }

  /** The text of an integer, with a leading `-` when negative. */
  function IntToDecimal(i: int): (s: string)
    ensures i >= 0 ==> s == NatToDecimal(i)
    ensures i < 0 ==> s == "-" + NatToDecimal(-i)
  {
    if i < 0 then "-" + NatToDecimal(-i) else NatToDecimal(i)
  }

  /** A canonical array-index key: decimal digits without a leading zero. */
  predicate IsCanonicalIndex(s: string) {
    |s| >= 1 && AllDigits(s) && (|s| == 1 || s[0] != '0')
  }

  lemma {:induction false} DecimalIsCanonical(n: nat)
    ensures IsCanonicalIndex(NatToDecimal(n)) && DecimalValue(NatToDecimal(n)) == n
  {
    DecimalRoundTrip(n);
  }

  /** ECMAScript white space and line terminators (what `trim` and `parseInt` skip). */
  predicate IsJsSpace(c: char) {
    var n := c as int;
    n == 0x09 || n == 0x0A || n == 0x0B || n == 0x0C || n == 0x0D || n == 0x20
    || n == 0xA0 || n == 0x1680 || (0x2000 <= n <= 0x200A) || n == 0x2028 || n == 0x2029
    || n == 0x202F || n == 0x205F || n == 0x3000 || n == 0xFEFF
  }

  function TrimStart(s: string): (r: string)
    ensures |r| <= |s| && r == s[|s| - |r|..]
    ensures |r| > 0 ==> !IsJsSpace(r[0])
    ensures forall i :: 0 <= i < |s| - |r| ==> IsJsSpace(s[i])
  {
    if |s| > 0 && IsJsSpace(s[0]) then
      var r := TrimStart(s[1..]);
      assert s[1..][|s| - 1 - |r|..] == s[|s| - |r|..];
      assert forall i :: 1 <= i < |s| - |r| ==> s[i] == s[1..][i - 1];
      r
    else s
  }

  function TrimEnd(s: string): (r: string)
    ensures |r| <= |s| && r == s[..|r|]
    ensures |r| > 0 ==> !IsJsSpace(r[|r| - 1])
    ensures forall i :: |r| <= i < |s| ==> IsJsSpace(s[i])
  {
    if |s| > 0 && IsJsSpace(s[|s| - 1]) then TrimEnd(s[..|s| - 1]) else s
  }

  /** `String.prototype.trim`. */
  function Trim(s: string): string {
    TrimEnd(TrimStart(s))
  }

  /** The trimmed text is empty exactly when every character is white space. */
  lemma {:induction false} TrimEmptyIffAllSpace(s: string)
    ensures Trim(s) == "" <==> forall i :: 0 <= i < |s| ==> IsJsSpace(s[i])
  {
    var t := TrimStart(s);
    if Trim(s) == "" {
    } else {
      var r := Trim(s);
      assert t[0] == r[0];
      assert s[|s| - |t|] == t[0];
    }
  }

  predicate IsHexDigit(c: char) {
    IsDigit(c) || 'a' <= c <= 'f' || 'A' <= c <= 'F'
  }

  function HexDigitValue(c: char): (d: nat)
    requires IsHexDigit(c)
    ensures d < 16
  {
    if IsDigit(c) then DigitValue(c)
    else if 'a' <= c <= 'f' then c as int - 'a' as int + 10
    else c as int - 'A' as int + 10
  }

  /** The longest prefix of `s` made of digits of the given radix (10 or 16). */
  function DigitPrefix(s: string, hex: bool): (r: string)
    ensures |r| <= |s| && r == s[..|r|]
    ensures forall i :: 0 <= i < |r| ==> (if hex then IsHexDigit(r[i]) else IsDigit(r[i]))
  {
    if |s| > 0 && (if hex then IsHexDigit(s[0]) else IsDigit(s[0]))
    then [s[0]] + DigitPrefix(s[1..], hex)
    else []
  }

  function RadixValue(s: string, hex: bool): nat
    requires forall i :: 0 <= i < |s| ==> (if hex then IsHexDigit(s[i]) else IsDigit(s[i]))
  {
    if |s| == 0 then 0
    else RadixValue(s[..|s| - 1], hex) * (if hex then 16 else 10)
         + (if hex then HexDigitValue(s[|s| - 1]) else DigitValue(s[|s| - 1]))
  }

  /** The magnitude `parseInt` reads after the sign: a `0x` or `0X` prefix selects
      hexadecimal, then the longest run of digits is read; `None` is `NaN`. */
  function ParseMagnitude(u: string): Option<nat>
  {
    var hex := HasHexPrefix(u);
    var body := if hex then u[2..] else u;
    DigitsValue(DigitPrefix(body, hex), hex)
  }

  predicate HasHexPrefix(u: string) {
    |u| >= 2 && u[0] == '0' && (u[1] == 'x' || u[1] == 'X')
  }

  /** The number a run of digits denotes; `None` (`NaN`) for an empty run. */
  function DigitsValue(digits: string, hex: bool): Option<nat>
    requires forall i :: 0 <= i < |digits| ==> (if hex then IsHexDigit(digits[i]) else IsDigit(digits[i]))
  {
    if digits == [] then None else Some(RadixValue(digits, hex))
  }

  /** Global `parseInt(s)` with no radix: skip white space, take one sign, then read
      the magnitude; `None` is `NaN`. */
  function ParseInt(s: string): Option<int>
  {
    ParseSigned(TrimStart(s))
  }

  function ParseSigned(t: string): Option<int>
  {
    if |t| > 0 && (t[0] == '-' || t[0] == '+') then
      match ParseMagnitude(t[1..])
      case None => None
      case Some(m) => Some(if t[0] == '-' then -(m as int) else m as int)
    else
      match ParseMagnitude(t)
      case None => None
      case Some(m) => Some(m as int)
  }

  lemma {:induction false} DigitIsNotSpace(c: char)
    requires IsDigit(c)
    ensures !IsJsSpace(c)
  {
  }

  /** Text that starts with a character other than white space is left as it is. */
  lemma {:induction false} TrimStartStops(s: string)
    requires |s| > 0 && !IsJsSpace(s[0])
    ensures TrimStart(s) == s
  {
  }

  /** Text whose first two characters are not `0x` or `0X` is read in decimal. */
  lemma {:induction false} DecimalMagnitude(u: string)
    requires |u| >= 1 && IsDigit(u[0]) && (|u| >= 2 ==> IsDigit(u[1]) || u[1] == ' ')
    ensures ParseMagnitude(u) == DigitsValue(DigitPrefix(u, false), false)
  {
    assert !HasHexPrefix(u);
  }

  lemma {:induction false} MagnitudeOfDecimal(d: string)
    requires |d| >= 1 && AllDigits(d)
    ensures ParseMagnitude(d) == Some(DecimalValue(d))
  {
    if |d| >= 2 {
      assert IsDigit(d[1]);
    }
    DecimalMagnitude(d);
    DigitPrefixWhole(d);
    DecimalIsRadixValue(d);
  }

  lemma {:induction false} ParseIntOfDigits(d: string)
    requires |d| >= 1 && AllDigits(d)
    ensures ParseInt(d) == Some(DecimalValue(d))
  {
    assert IsDigit(d[0]);
    DigitIsNotSpace(d[0]);
    TrimStartStops(d);
    MagnitudeOfDecimal(d);
  }

  lemma {:induction false} ParseIntOfMinusDigits(d: string)
    requires |d| >= 1 && AllDigits(d)
    ensures ParseInt("-" + d) == Some(-(DecimalValue(d) as int))
  {
    var s := "-" + d;
    assert s[0] == '-' && s[1..] == d;
    MinusIsNotSpace();
    TrimStartStops(s);
    MagnitudeOfDecimal(d);
    NegativeSign(s, DecimalValue(d));
  }

  /** A leading `-` negates the magnitude that follows it. */
  lemma {:induction false} NegativeSign(t: string, m: nat)
    requires |t| > 0 && t[0] == '-' && ParseMagnitude(t[1..]) == Some(m)
    ensures ParseSigned(t) == Some(-(m as int))
  {
  }

  lemma {:induction false} MinusIsNotSpace()
    ensures !IsJsSpace('-')
  {
  }

  /** `parseInt` reads back the text of any integer. */
  lemma {:induction false} ParseIntOfDecimal(i: int)
    ensures ParseInt(IntToDecimal(i)) == Some(i)
  {
    var n: nat := if i < 0 then -i else i;
    ParseIntOfDigits(NatToDecimal(n));
    ParseIntOfMinusDigits(NatToDecimal(n));
    DecimalRoundTrip(n);
  }

  lemma {:induction false} DigitPrefixWhole(d: string)
    requires AllDigits(d)
    ensures DigitPrefix(d, false) == d
  {
    if |d| > 0 {
      DigitPrefixWhole(d[1..]);
    }
  }

  lemma {:induction false} DecimalIsRadixValue(d: string)
    requires AllDigits(d)
    ensures RadixValue(d, false) == DecimalValue(d)
  {
    if |d| > 0 {
      DecimalIsRadixValue(d[..|d| - 1]);
    }
  }

  /** `parseInt` reads the text of a natural number back when a space follows it. */
  lemma {:induction false} ParseIntBeforeSpace(n: nat, rest: string)
    requires |rest| > 0 && rest[0] == ' '
    ensures ParseInt(IntToDecimal(n) + rest) == Some(n)
  {
    var d := NatToDecimal(n);
    DecimalRoundTrip(n);
    var s := d + rest;
    assert s[0] == d[0] && IsDigit(s[0]);
    DigitIsNotSpace(s[0]);
    TrimStartStops(s);
    MagnitudeBeforeSpace(d, rest);
  }

  lemma {:induction false} MagnitudeBeforeSpace(d: string, rest: string)
    requires |d| >= 1 && AllDigits(d) && |rest| > 0 && rest[0] == ' '
    ensures ParseMagnitude(d + rest) == Some(DecimalValue(d))
  {
    DigitPrefixStops(d, rest);
    DecimalIsRadixValue(d);
    var u := d + rest;
    assert u[0] == d[0] && IsDigit(u[0]);
    if |d| == 1 {
      assert u[1] == ' ';
    } else {
      assert u[1] == d[1] && IsDigit(u[1]);
    }
    DecimalMagnitude(u);
  }

  lemma {:induction false} DigitPrefixStops(d: string, rest: string)
    requires AllDigits(d) && |rest| > 0 && !IsDigit(rest[0])
    ensures DigitPrefix(d + rest, false) == d
  {
    if |d| == 0 {
      assert d + rest == rest;
    } else {
      assert (d + rest)[1..] == d[1..] + rest;
      DigitPrefixStops(d[1..], rest);
    }
  }

  /** A string with no digit after its white space, sign and prefix parses as `NaN`. */
  lemma {:induction false} ParseIntLetterFirst(s: string)
    requires |s| > 0 && 'A' <= s[0] <= 'Z'
    ensures ParseInt(s) == None
  {
  }

  /** `Array.prototype.join(sep)` on strings. */
  function Join(parts: seq<string>, sep: string): (r: string)
    ensures parts == [] ==> r == ""
    ensures |parts| == 1 ==> r == parts[0]
    ensures |parts| >= 2 ==> r == parts[0] + sep + Join(parts[1..], sep)
  {
    if |parts| == 0 then ""
    else if |parts| == 1 then parts[0]
    else parts[0] + sep + Join(parts[1..], sep)
  }

  /** Joining non-empty parts yields the empty string only for the empty list. */
  lemma {:induction false} JoinEmptyIffNoParts(parts: seq<string>, sep: string)
    requires forall i :: 0 <= i < |parts| ==> parts[i] != ""
    ensures Join(parts, sep) == "" <==> parts == []
  {
    if |parts| > 1 {
      assert |Join(parts, sep)| >= |parts[0]|;
    }
  }

  /** Joining one more part appends the separator and that part. */
  lemma {:induction false} JoinSnoc(parts: seq<string>, sep: string, last: string)
    requires parts != []
    ensures Join(parts + [last], sep) == Join(parts, sep) + sep + last
  {
    if |parts| == 1 {
      assert parts + [last] == [parts[0], last];
      assert [parts[0], last][1..] == [last];
    } else {
      assert (parts + [last])[1..] == parts[1..] + [last];
      JoinSnoc(parts[1..], sep, last);
    }
  }

  /** `String.prototype.split(c)` for one character: the pieces between the `c`s. */
  function Split(s: string, c: char): (r: seq<string>)
    ensures |r| >= 1
  {
    if |s| == 0 then [""]
    else
      var rest := Split(s[1..], c);
      if s[0] == c then [""] + rest else [[s[0]] + rest[0]] + rest[1..]
  }

  /** A text without `c` is one piece, and `p + [c] + rest` splits into `p` and the
      pieces of `rest`. */
  lemma {:induction false} SplitPiece(p: string, c: char, rest: Option<string>)
    requires c !in p
    ensures rest.None? ==> Split(p, c) == [p]
    ensures rest.Some? ==> Split(p + [c] + rest.value, c) == [p] + Split(rest.value, c)
  {
    if |p| > 0 {
      SplitPiece(p[1..], c, rest);
      if rest.Some? {
        assert (p + [c] + rest.value)[1..] == p[1..] + [c] + rest.value;
      }
      assert [p[0]] + p[1..] == p;
    } else if rest.Some? {
      assert p + [c] + rest.value == [c] + rest.value;
      assert ([c] + rest.value)[1..] == rest.value;
    }
  }

  /** Splitting a join on a one-character separator gives back the parts, when no part
      contains the separator. */
  lemma {:induction false} SplitJoin(parts: seq<string>, c: char)
    requires parts != []
    requires forall i :: 0 <= i < |parts| ==> c !in parts[i]
    ensures Split(Join(parts, [c]), c) == parts
  {
    if |parts| == 1 {
      SplitPiece(parts[0], c, None);
    } else {
      SplitJoin(parts[1..], c);
      SplitPiece(parts[0], c, Some(Join(parts[1..], [c])));
      assert [parts[0]] + parts[1..] == parts;
    }
  }

  /** The index of the first `ch` in `s`, or `|s|` when absent. */
  function IndexOf(s: string, ch: char): (k: nat)
    ensures k <= |s|
    ensures forall i :: 0 <= i < k ==> s[i] != ch
    ensures k < |s| ==> s[k] == ch
  {
    if |s| == 0 then 0 else if s[0] == ch then 0 else 1 + IndexOf(s[1..], ch)
  }
}
