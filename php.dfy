/** The parts of PHP's value semantics that the widget's settings go through:
    an undefined array index, `empty()`, the string cast, `intval()` and the
    loose comparison `== 1`. */
module Php {

  /** A settings value as PHP holds it: null, a string or an integer. */
  datatype Field = Null | Text(s: string) | Number(n: int)

  /** A PHP array with string keys, as the widget's settings are stored. */
  type Settings = map<string, Field>

  /** `$settings[$key]`: an undefined index reads as null. */
  function At(settings: Settings, key: string): Field
  {
    if key in settings then settings[key] else Null
  }

  /** PHP's `empty()` on a settings value: null, "", "0" and 0 are empty,
      which are exactly the values whose string form is "" or "0". */
  predicate Empty(f: Field): (b: bool)
    ensures b <==> ToStr(f) == "" || ToStr(f) == "0"
  {
    match f
    case Null => true
    case Text(s) => s == "" || s == "0"
    case Number(n) => IntToStringZero(n); n == 0
  }

  predicate IsDigit(c: char)
  {
    '0' <= c <= '9'
  }

  /** The characters C's `isspace` accepts: space, tab, line feed, vertical tab, form feed, carriage return. */
  predicate IsSpace(c: char)
  {
    c == ' ' || '\t' <= c <= '\r'
  }

  predicate AllDigits(s: string)
  {
    forall i :: 0 <= i < |s| ==> IsDigit(s[i])
  }

  function DigitChar(d: nat): (c: char)
    requires d < 10
    ensures IsDigit(c) && c as int - '0' as int == d
  {
    ('0' as int + d) as char
  }

  /** Decimal notation of a natural number, without leading zeros. */
  function NatToString(n: nat): (s: string)
    ensures |s| > 0 && AllDigits(s)
    ensures |s| > 1 ==> s[0] != '0'
  {
    if n < 10 then [DigitChar(n)] else NatToString(n / 10) + [DigitChar(n % 10)]
  }

  /** `(string) $n` for an integer. */
  function IntToString(n: int): string
  {
    if n < 0 then "-" + NatToString(-n) else NatToString(n)
  }

  /** Only zero is written "0", and no integer is written as the empty string. */
  lemma IntToStringZero(n: int)
    ensures IntToString(n) != ""
    ensures IntToString(n) == "0" <==> n == 0
  {
    if n > 0 && n < 10 {
      assert IntToString(n) == [DigitChar(n)];
    }
  }

  /** `(string) $value`: null becomes the empty string. */
  function ToStr(f: Field): string
  {
    match f
    case Null => ""
    case Text(s) => s
    case Number(n) => IntToString(n)
  }

  /** Drops leading white space. */
  function SkipSpace(s: string): (t: string)
    ensures |t| <= |s| && t == s[|s| - |t|..]
    ensures t == [] || !IsSpace(t[0])
  {
    if |s| > 0 && IsSpace(s[0]) then SkipSpace(s[1..]) else s
  }

  /** The longest prefix of `s` made of decimal digits. */
  function LeadingDigits(s: string): (d: string)
    ensures d <= s && AllDigits(d)
    ensures |d| < |s| ==> !IsDigit(s[|d|])
  {
    if |s| > 0 && IsDigit(s[0]) then [s[0]] + LeadingDigits(s[1..]) else []
  }

  /** The value of a string of decimal digits. */
  function DigitsValue(d: string): nat
    requires AllDigits(d)
  {
    if d == [] then 0 else 10 * DigitsValue(d[..|d| - 1]) + (d[|d| - 1] as int - '0' as int)
  }

  /** `intval($s)` for a string: leading white space, an optional sign, then
      as many decimal digits as follow; no digits reads as 0. */
  function TextIntVal(s: string): (r: int)
    ensures r < 0 ==> '-' in s
    ensures r != 0 ==> exists i :: 0 <= i < |s| && IsDigit(s[i])
  {
    var t := SkipSpace(s);
    if |t| > 0 && t[0] == '-' then -(DigitsValue(LeadingDigits(t[1..])) as int)
    else if |t| > 0 && t[0] == '+' then DigitsValue(LeadingDigits(t[1..]))
    else DigitsValue(LeadingDigits(t))
  }

  /** `intval($value)`: null is 0, an integer is itself. */
  function IntVal(f: Field): (r: int)
    ensures f.Null? ==> r == 0
    ensures f.Number? ==> r == f.n
    ensures f.Text? && r < 0 ==> '-' in f.s
    ensures f.Text? && r != 0 ==> exists i :: 0 <= i < |f.s| && IsDigit(f.s[i])
  {
    match f
    case Null => 0
    case Text(s) => TextIntVal(s)
    case Number(n) => n
  }

  /** `$value == 1`: whatever compares equal to 1 is not empty and reads as 1. */
  predicate LooseEqualsOne(f: Field): (b: bool)
    ensures b ==> !Empty(f) && IntVal(f) == 1
  {
    match f
    case Null => false
    case Text(s) => if s == "1" then TextOne(f); true else false
    case Number(n) => n == 1
  }

  lemma TextOne(f: Field)
    requires f == Text("1")
    ensures !Empty(f) && IntVal(f) == 1
  {
    IntValOfOne();
  }

  lemma {:induction false} LeadingDigitsOfDigits(s: string)
    requires AllDigits(s)
    ensures LeadingDigits(s) == s
  {
    if |s| > 0 {
      LeadingDigitsOfDigits(s[1..]);
    }
  }

  lemma {:induction false} DigitsValueOfNatToString(n: nat)
    ensures DigitsValue(NatToString(n)) == n
  {
    var s := NatToString(n);
    if n >= 10 {
      assert s[..|s| - 1] == NatToString(n / 10);
      DigitsValueOfNatToString(n / 10);
    }
  }

  lemma SkipSpaceNone(s: string)
    requires |s| > 0 && !IsSpace(s[0])
    ensures SkipSpace(s) == s
  {
  }

  /** A string of digits reads as its decimal value. */
  lemma TextIntValOfDigits(d: string)
    requires |d| > 0 && AllDigits(d)
    ensures TextIntVal(d) == DigitsValue(d)
  {
    SkipSpaceNone(d);
    LeadingDigitsOfDigits(d);
    assert d[0] != '-' && d[0] != '+';
  }

  /** A minus sign before a string of digits negates its value. */
  lemma TextIntValOfNegated(d: string)
    requires |d| > 0 && AllDigits(d)
    ensures TextIntVal("-" + d) == -(DigitsValue(d) as int)
  {
    var m := "-" + d;
    SkipSpaceNone(m);
    assert m[1..] == d;
    LeadingDigitsOfDigits(d);
  }

  /** `intval((string) $n) == $n`: the integer cast and the string cast are inverse. */
  lemma IntValOfIntToString(n: int)
    ensures IntVal(Text(IntToString(n))) == n
    ensures TextIntVal(ToStr(Number(n))) == n
  {
    var m: nat := if n < 0 then -n else n;
    DigitsValueOfNatToString(m);
    if n < 0 {
      TextIntValOfNegated(NatToString(m));
    } else {
      TextIntValOfDigits(NatToString(m));
    }
  }

  /** The value a ticked checkbox posts reads as 1. */
  lemma IntValOfOne()
    ensures IntVal(Text("1")) == 1
  {
    IntValOfIntToString(1);
    assert IntToString(1) == "1";
  }
}
