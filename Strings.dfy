/** The string operations of Python's `str` and `int` that the pipeline relies on:
    decimal rendering and parsing, ASCII lower-casing, `strip`, prefixes and
    suffixes, `rsplit(c, 1)` and single-character `replace`. */
module Strings {
  import opened Common

  predicate IsDigit(c: char) {
    '0' <= c <= '9'
  }

  predicate AllDigits(s: string) {
    forall i :: 0 <= i < |s| ==> IsDigit(s[i])
  }

  function DigitChar(d: nat): (c: char)
    requires d < 10
    ensures IsDigit(c) && c as int - '0' as int == d
  {
    ('0' as int + d) as char
  }

  /** Python's `str(n)` for a non-negative integer: decimal digits, no leading zero. */
  function NatToString(n: nat): (s: string)
    ensures |s| >= 1 && AllDigits(s)
    ensures s[0] == '0' <==> n == 0
    decreases n
  {
    if n < 10 then [DigitChar(n)] else NatToString(n / 10) + [DigitChar(n % 10)]
  }

  /** Python's `str(i)` (and an f-string's `{i}`) for any integer. */
  function IntToString(i: int): (s: string)
    ensures |s| >= 1
    ensures s[0] == '-' <==> i < 0
    ensures IsDigit(s[|s| - 1])
  {
    if i < 0 then "-" + NatToString(-i) else NatToString(i)
  }

  /** The value of a string of decimal digits (leading zeros allowed). */
  function DigitsValue(s: string): nat
    requires AllDigits(s)
  {
    if s == [] then 0 else DigitsValue(s[..|s| - 1]) * 10 + (s[|s| - 1] as int - '0' as int)
  }

  lemma {:induction false} NatToStringRoundTrip(n: nat)
    ensures DigitsValue(NatToString(n)) == n
  {
    if n >= 10 {
      var s := NatToString(n);
      assert s == NatToString(n / 10) + [DigitChar(n % 10)];
      assert s[..|s| - 1] == NatToString(n / 10);
      NatToStringRoundTrip(n / 10);
    }
  }

  /** A character `str.isspace()` holds of, restricted to ASCII. */
  predicate IsSpace(c: char) {
    c == ' ' || 9 <= c as int <= 13 || 28 <= c as int <= 31
  }

  /** A blank `int()` skips around its literal: a space or one of `\t\n\v\f\r`. The
      separators 0x1C-0x1F that `str.isspace()` also accepts are not among them. */
  predicate IsIntSpace(c: char) {
    c == ' ' || 9 <= c as int <= 13
  }

  /** The blanks of `str.strip()`, or with `forInt` those of `int()`. */
  predicate IsBlank(c: char, forInt: bool) {
    if forInt then IsIntSpace(c) else IsSpace(c)
  }

  function TrimStart(s: string, forInt: bool): (r: string)
    ensures |r| <= |s| && r == s[|s| - |r|..]
    ensures r == [] || !IsBlank(r[0], forInt)
    ensures forall i :: 0 <= i < |s| - |r| ==> IsBlank(s[i], forInt)
  {
    if s != [] && IsBlank(s[0], forInt) then TrimStart(s[1..], forInt) else s
  }

  function TrimEnd(s: string, forInt: bool): (r: string)
    ensures |r| <= |s| && r == s[..|r|]
    ensures r == [] || !IsBlank(r[|r| - 1], forInt)
    ensures forall i :: |r| <= i < |s| ==> IsBlank(s[i], forInt)
  {
    if s != [] && IsBlank(s[|s| - 1], forInt) then TrimEnd(s[..|s| - 1], forInt) else s
  }

  /** Python's `s.strip()`: empty exactly when `s` is all whitespace; otherwise it
      neither starts nor ends with whitespace. */
  function Strip(s: string): (r: string)
    ensures |r| <= |s|
    ensures r == [] <==> forall i :: 0 <= i < |s| ==> IsSpace(s[i])
    ensures r != [] ==> !IsSpace(r[0]) && !IsSpace(r[|r| - 1])
  {
    TrimEnd(TrimStart(s, false), false)
  }

  /** The blanks `int()` skips before and after its literal: empty exactly when `s`
      holds only such blanks; otherwise it neither starts nor ends with one. */
  function StripForInt(s: string): (r: string)
    ensures |r| <= |s|
    ensures r == [] <==> forall i :: 0 <= i < |s| ==> IsIntSpace(s[i])
    ensures r != [] ==> !IsIntSpace(r[0]) && !IsIntSpace(r[|r| - 1])
  {
    TrimEnd(TrimStart(s, true), true)
  }

  /** The digits of a base-10 Python integer literal: non-empty, digits and `_`,
      each `_` standing between two digits. */
  predicate IsDigitGroup(s: string) {
    && s != []
    && (forall i :: 0 <= i < |s| ==> IsDigit(s[i]) || s[i] == '_')
    && (forall i :: 0 <= i < |s| ==> UnderscoreFlanked(s, i))
  }

  /** Position `i` of `s` is not a `_`, or is one with a digit on either side. */
  predicate UnderscoreFlanked(s: string, i: int)
    requires 0 <= i < |s|
  {
    s[i] == '_' ==> 0 < i < |s| - 1 && IsDigit(s[i - 1]) && IsDigit(s[i + 1])
  }

  function DropUnderscores(s: string): (r: string)
    ensures (forall i :: 0 <= i < |s| ==> IsDigit(s[i]) || s[i] == '_') ==> AllDigits(r)
    ensures AllDigits(s) ==> r == s
  {
    if s == [] then [] else (if s[0] == '_' then [] else [s[0]]) + DropUnderscores(s[1..])
  }

  /** The value of the base-10 Python integer literal `s` holds between the blanks
      `int()` skips (those of `IsIntSpace`), or `None` when it holds none: a value that
      is only such blanks is not read, a negative result needs a leading `-`, and a run
      of decimal digits between such blanks always reads as its value. */
  function LiteralValue(s: string): (r: Option<int>)
    ensures r.Some? ==> StripForInt(s) != [] && (r.value < 0 ==> StripForInt(s)[0] == '-')
    ensures StripForInt(s) != [] && AllDigits(StripForInt(s)) ==> r == Some(DigitsValue(StripForInt(s)))
  {
    var t := StripForInt(s);
    if t == [] then None
    else
      var body := if t[0] == '-' || t[0] == '+' then t[1..] else t;
      if !IsDigitGroup(body) then None
      else
        var n: int := DigitsValue(DropUnderscores(body));
        Some(if t[0] == '-' then -n else n)
  }

  /** `sys.get_int_max_str_digits()` at its default: `int()` refuses a base-10 string
      with more digits than this. */
  const MaxStrDigits: nat := 4300

  /** The number of decimal digits in the literal of `s`, not counting the blanks
      around it, its sign or its underscores. */
  function LiteralDigits(s: string): nat {
    var t := StripForInt(s);
    var body := if t != [] && (t[0] == '-' || t[0] == '+') then t[1..] else t;
    |DropUnderscores(body)|
  }

  /** `int(raw)`'s message for a string that is not a literal: `%.200R` cuts the repr
      to 200 characters (the repr quotes are modelled as plain single quotes). */
  function InvalidLiteral(raw: string): (m: string)
    ensures |m| <= 40 + 200
    ensures |raw| <= 198 ==> m == "invalid literal for int() with base 10: '" + raw + "'"
  {
    var quoted := "'" + raw + "'";
    "invalid literal for int() with base 10: " + (if |quoted| <= 200 then quoted else quoted[..200])
  }

  /** `int()`'s message for a literal of `digits` digits, more than `MaxStrDigits`. */
  function DigitLimit(digits: nat): string {
    "Exceeds the limit (" + NatToString(MaxStrDigits) + " digits) for integer string conversion: value has "
      + NatToString(digits) + " digits; use sys.set_int_max_str_digits() to increase the limit"
  }

  /** Python's `int(s)` in base 10: the literal's value, or the message of the
      `ValueError` it raises. Only the blanks of `IsIntSpace` are skipped around the
      literal; a value that is only such blanks is refused as an invalid literal; a
      negative result needs a leading `-`; a run of decimal digits between such blanks
      reads as its value when it has at most `MaxStrDigits` digits and is refused with
      the digit-limit message when it has more. */
  function ParseInt(s: string): (r: Result<int>)
    ensures r.Success? ==> StripForInt(s) != [] && LiteralDigits(s) <= MaxStrDigits
    ensures r.Success? && r.value < 0 ==> StripForInt(s)[0] == '-'
    ensures StripForInt(s) == [] ==> r == Failure(InvalidLiteral(s))
    ensures var t := StripForInt(s);
      t != [] && AllDigits(t) ==>
        r == if |t| <= MaxStrDigits then Success(DigitsValue(t)) else Failure(DigitLimit(|t|))
  {
    var t := StripForInt(s);
    assert t != [] && AllDigits(t) ==> LiteralDigits(s) == |t| by {
      if t != [] && AllDigits(t) {
        assert IsDigit(t[0]);
      }
    }
    match LiteralValue(s)
    case None => Failure(InvalidLiteral(s))
    case Some(n) => if LiteralDigits(s) <= MaxStrDigits then Success(n) else Failure(DigitLimit(LiteralDigits(s)))
  }

  /** The decimal text `str(i)` is a literal denoting `i`. */
  lemma IntToStringRoundTrip(i: int)
    ensures LiteralValue(IntToString(i)) == Some(i)
  {
    var s := IntToString(i);
    var n: nat := if i < 0 then -i else i;
    var digits := NatToString(n);
    NatToStringRoundTrip(n);
    assert StripForInt(s) == s by {
      StripLeavesLiteral(s);
    }
    if i < 0 {
      assert s[1..] == digits;
      ParseNegative(s, digits);
    } else {
      assert s == digits;
    }
  }

  /** `int(str(i))`: `i` back when its decimal text has at most `MaxStrDigits` digits,
      the digit-limit error when it has more. */
  lemma ParseIntOfString(i: int)
    ensures var digits := |NatToString(if i < 0 then -i else i)|;
      ParseInt(IntToString(i)) == if digits <= MaxStrDigits then Success(i) else Failure(DigitLimit(digits))
  {
    IntToStringRoundTrip(i);
    StringDigits(i);
  }

  /** The literal `str(i)` has as many digits as `str(abs(i))`. */
  lemma StringDigits(i: int)
    ensures LiteralDigits(IntToString(i)) == |NatToString(if i < 0 then -i else i)|
  {
    var s := IntToString(i);
    var digits := NatToString(if i < 0 then -i else i);
    assert StripForInt(s) == s by {
      StripLeavesLiteral(s);
    }
    if i < 0 {
      assert s[1..] == digits;
    } else {
      assert s == digits;
    }
  }

  /** A minus sign followed by decimal digits, with no blank around it, reads as the
      negated value of the digits. */
  lemma ParseNegative(s: string, digits: string)
    requires StripForInt(s) == s && s != [] && s[0] == '-' && s[1..] == digits
    requires digits != [] && AllDigits(digits)
    ensures LiteralValue(s) == Some(-(DigitsValue(digits) as int))
  {
    assert IsDigitGroup(digits);
  }

  /** A run of more than `MaxStrDigits` digits is refused with the digit-limit message:
      `int("1" * n)` raises for every `n` over 4300. */
  lemma OverlongRefused(n: nat)
    requires n > MaxStrDigits
    ensures ParseInt(Repeat('1', n)) == Failure(DigitLimit(n))
  {
    var s := Repeat('1', n);
    assert s[0] == '1' && s[|s| - 1] == '1';
    StripLeavesLiteral(s);
    assert AllDigits(s);
  }

  /** A value that neither starts nor ends with whitespace is left alone by both trims. */
  lemma StripLeavesLiteral(s: string)
    requires s != [] && !IsSpace(s[0]) && !IsSpace(s[|s| - 1])
    ensures Strip(s) == s && StripForInt(s) == s
  {
    assert TrimStart(s, false) == s && TrimEnd(s, false) == s;
    assert TrimStart(s, true) == s && TrimEnd(s, true) == s;
  }

  /** `int()` refuses a value whose first character is none of its blanks, a sign or
      a digit. */
  lemma ParseRefusesLeading(s: string)
    requires s != [] && !IsIntSpace(s[0]) && !IsDigit(s[0]) && s[0] != '-' && s[0] != '+'
    ensures ParseInt(s) == Failure(InvalidLiteral(s))
  {
    var t := StripForInt(s);
    assert TrimStart(s, true) == s;
    assert t != [] && t[0] == s[0];
    assert !UnderscoreFlanked(t, 0) || !(IsDigit(t[0]) || t[0] == '_');
    assert LiteralValue(s).None?;
  }

  /** `str.strip()` removes the separator 0x1C: `"\U{1C}5"` strips to `"5"`. */
  lemma SeparatorStripped()
    ensures Strip("\U{1C}5") == "5"
  {
    var s := "\U{1C}5";
    assert s[0] as int == 28 && s[1..] == "5";
    StripDropsBlank(s);
    StripLeavesLiteral(s[1..]);
  }

  /** `strip()` of a value that starts with a blank is `strip()` of the rest. */
  lemma StripDropsBlank(s: string)
    requires s != [] && IsSpace(s[0])
    ensures Strip(s) == Strip(s[1..])
  {
    assert TrimStart(s, false) == TrimStart(s[1..], false);
  }

  /** `int()` does not skip the separator 0x1C that `str.strip()` removes: it refuses `"\U{1C}5"`. */
  lemma SeparatorNotIntSpace()
    ensures ParseInt("\U{1C}5") == Failure(InvalidLiteral("\U{1C}5"))
  {
    var s := "\U{1C}5";
    assert s[0] as int == 28;
    ParseRefusesLeading(s);
  }

  function LowerChar(c: char): char {
    if 'A' <= c <= 'Z' then (c as int + 32) as char else c
  }

  /** Python's `s.lower()`, for ASCII letters. */
  function Lower(s: string): (r: string)
    ensures |r| == |s|
    ensures forall i :: 0 <= i < |s| ==> r[i] == LowerChar(s[i])
  {
    seq(|s|, i requires 0 <= i < |s| => LowerChar(s[i]))
  }

  predicate StartsWith(s: string, prefix: string) {
    |prefix| <= |s| && s[..|prefix|] == prefix
  }

  predicate EndsWith(s: string, suffix: string) {
    |suffix| <= |s| && s[|s| - |suffix|..] == suffix
  }

  /** The index of the last `c` in `s`, as `str.rfind` finds it. */
  function LastIndexOf(s: string, c: char): (r: Option<nat>)
    ensures r.None? <==> c !in s
    ensures r.Some? ==> r.value < |s| && s[r.value] == c
    ensures r.Some? ==> forall j :: r.value < j < |s| ==> s[j] != c
  {
    if s == [] then None
    else if s[|s| - 1] == c then Some(|s| - 1)
    else
      assert s == s[..|s| - 1] + [s[|s| - 1]];
      LastIndexOf(s[..|s| - 1], c)
  }

  /** `s.rsplit(c, 1)[0]`: everything before the last `c`, or all of `s` when there is none. */
  function RSplitHead(s: string, c: char): string {
    match LastIndexOf(s, c)
    case None => s
    case Some(i) => s[..i]
  }

  /** `s.rsplit(c, 1)[1]`, which exists only when `c` occurs in `s`. */
  function RSplitTail(s: string, c: char): string
    requires c in s
  {
    s[LastIndexOf(s, c).value + 1..]
  }

  /** Python's `s.replace(from, to)` for single characters. */
  function ReplaceChar(s: string, from: char, to: char): (r: string)
    ensures |r| == |s|
    ensures forall i :: 0 <= i < |s| ==> r[i] == (if s[i] == from then to else s[i])
  {
    seq(|s|, i requires 0 <= i < |s| => if s[i] == from then to else s[i])
  }

  /** Python's `c * n` for a one-character string `c`. */
  function Repeat(c: char, n: nat): (r: string)
    ensures |r| == n
    ensures forall i :: 0 <= i < n ==> r[i] == c
  {
    if n == 0 then [] else Repeat(c, n - 1) + [c]
  }
}
