/** Decimal numbers as text: `sql_number::parse` with its cascade of conversions
    (src/sql_number.h:140-151, 207-237) and `to_string`, on a platform with 64-bit `long`. */
module Decimal {
  import opened SqlText

  // ----- digits -----

  predicate IsDigit(c: char) {
    '0' <= c <= '9'
  }

  function DigitChar(d: nat): (c: char)
    requires d < 10
    ensures IsDigit(c) && DigitValue(c) == d
  {
    '0' + d as char
  }

  lemma DigitSpelling(d: nat)
    requires d < 10
    ensures DigitChar(d) == "0123456789"[d]
  {
  }

  function DigitValue(c: char): (d: nat)
    requires IsDigit(c)
    ensures d < 10
  {
    (c - '0') as nat
  }

  predicate AllDigits(s: string) {
    forall i | 0 <= i < |s| :: IsDigit(s[i])
  }

  /** `std::to_string` of a natural number. */
  function NatText(n: nat): (s: string)
    ensures s != [] && AllDigits(s)
  {
    if n < 10 then [DigitChar(n)] else NatText(n / 10) + [DigitChar(n % 10)]
  }

  function IntText(n: int): (s: string) {
    if n < 0 then "-" + NatText(-n) else NatText(n)
  }

  /** The value of a digit sequence read from the left. */
  function ReadDigits(s: string, acc: nat): nat
    requires AllDigits(s)
  {
    if s == [] then acc else ReadDigits(s[1..], acc * 10 + DigitValue(s[0]))
  }

  lemma {:induction false} ReadDigitsSnoc(s: string, c: char, acc: nat)
    requires AllDigits(s) && IsDigit(c)
    ensures ReadDigits(s + [c], acc) == ReadDigits(s, acc) * 10 + DigitValue(c)
    decreases |s|
  {
    if s == [] {
      assert s + [c] == [c] && [c][1..] == [];
    } else {
      assert (s + [c])[0] == s[0] && (s + [c])[1..] == s[1..] + [c];
      ReadDigitsSnoc(s[1..], c, acc * 10 + DigitValue(s[0]));
    }
  }

  lemma {:induction false} ReadNatText(n: nat)
    ensures ReadDigits(NatText(n), 0) == n
  {
    if n < 10 {
      assert NatText(n)[1..] == [];
    } else {
      ReadNatText(n / 10);
      ReadDigitsSnoc(NatText(n / 10), DigitChar(n % 10), 0);
    }
  }

  // ----- the C conversions -----

  predicate IsSpace(c: char) {
    c == ' ' || 9 as char <= c <= 13 as char
  }

  function SkipSpaces(s: string): string {
    if s != [] && IsSpace(s[0]) then SkipSpaces(s[1..]) else s
  }

  function DigitPrefix(s: string): (d: string)
    ensures AllDigits(d) && d <= s
  {
    if s != [] && IsDigit(s[0]) then [s[0]] + DigitPrefix(s[1..]) else []
  }

  /** Sign and magnitude of the number at the start of a text; none if there is no digit. */
  function Scan(s: string): Option<(bool, nat)> {
    var t := SkipSpaces(s);
    var negative := t != [] && t[0] == '-';
    var u := if t != [] && (t[0] == '-' || t[0] == '+') then t[1..] else t;
    var d := DigitPrefix(u);
    if d == [] then None else Some((negative, ReadDigits(d, 0)))
  }

  const INT_MIN: int := -0x8000_0000
  const INT_MAX: int := 0x7fff_ffff
  const LONG_MIN: int := -0x8000_0000_0000_0000
  const LONG_MAX: int := 0x7fff_ffff_ffff_ffff
  const ULONG_MAX: int := 0xffff_ffff_ffff_ffff

  /** `std::stoi`, `std::stol` and `std::stoll`: the value, or an exception outside the range. */
  function Signed(s: string, min: int, max: int): Option<int> {
    match Scan(s)
    case None => None
    case Some((negative, m)) =>
      var n := if negative then 0 - m as int else m as int;
      if min <= n <= max then Some(n) else None
  }

  /** `std::stoul` and `std::stoull`: a minus sign negates modulo 2^64. */
  function Unsigned(s: string): Option<int> {
    match Scan(s)
    case None => None
    case Some((negative, m)) =>
      if m > ULONG_MAX then None
      else if negative && m > 0 then Some(ULONG_MAX + 1 - m) else Some(m)
  }

  datatype Number =
    | Bool(b: bool) | Int(n: int) | Long(n: int) | ULong(n: int) | LongLong(n: int) | ULongLong(n: int)

  datatype Parsed = Ok(number: Number) | NotANumber | Floating

  function Upper(c: char): char {
    if 'a' <= c <= 'z' then c - 32 as char else c
  }

  predicate SameIgnoringCase(s: string, t: string) {
    |s| == |t| && forall i | 0 <= i < |s| :: Upper(s[i]) == Upper(t[i])
  }

  function ParseBool(s: string): Parsed {
    if SameIgnoringCase(s, "true") || SameIgnoringCase(s, "yes") || s == "1" then Ok(Bool(true))
    else if SameIgnoringCase(s, "false") || SameIgnoringCase(s, "no") || s == "0" then Ok(Bool(false))
    else NotANumber
  }

  function ParseIntegral(s: string): Parsed {
    var i := Signed(s, INT_MIN, INT_MAX);
    if i.Some? then Ok(Int(i.value))
    else
      var l := Signed(s, LONG_MIN, LONG_MAX);
      if l.Some? then Ok(Long(l.value))
      else
        var ul := Unsigned(s);
        if ul.Some? then Ok(ULong(ul.value))
        else
          var ll := Signed(s, LONG_MIN, LONG_MAX);
          if ll.Some? then Ok(LongLong(ll.value))
          else
            var ull := Unsigned(s);
            if ull.Some? then Ok(ULongLong(ull.value)) else NotANumber
  }

  /** `sql_number::parse`; the floating-point branch is not modelled beyond being taken. */
  function ParseNumber(s: string): Parsed {
    if forall i | 0 <= i < |s| :: !IsDigit(s[i]) then ParseBool(s)
    else if '.' in s then Floating
    else ParseIntegral(s)
  }

  function UpperText(s: string): (r: string)
    ensures |r| == |s| && forall i | 0 <= i < |s| :: r[i] == Upper(s[i])
  {
    seq(|s|, i requires 0 <= i < |s| => Upper(s[i]))
  }

  lemma SameUpper(s: string, t: string)
    ensures SameIgnoringCase(s, t) <==> UpperText(s) == UpperText(t)
  {
    if SameIgnoringCase(s, t) {
      assert UpperText(s) == UpperText(t);
    }
    if UpperText(s) == UpperText(t) {
      assert |s| == |t| && forall i | 0 <= i < |s| :: UpperText(s)[i] == UpperText(t)[i];
    }
  }

  /** A text without a digit parses as a bool exactly in these spellings, in any case. */
  lemma ParseBoolIff(s: string, b: bool)
    requires forall i | 0 <= i < |s| :: !IsDigit(s[i])
    ensures ParseNumber(s) == Ok(Bool(b)) <==> UpperText(s) in if b then {"TRUE", "YES"} else {"FALSE", "NO"}
    ensures ParseNumber(s).Ok? <==> UpperText(s) in {"TRUE", "YES", "FALSE", "NO"}
  {
    SameUpper(s, "true");
    SameUpper(s, "yes");
    SameUpper(s, "false");
    SameUpper(s, "no");
    Spellings();
    if |s| == 1 {
      assert s != "1" && s != "0" by { assert !IsDigit(s[0]); }
    }
  }

  lemma Spellings()
    ensures UpperText("true") == "TRUE" && UpperText("yes") == "YES"
    ensures UpperText("false") == "FALSE" && UpperText("no") == "NO"
  {
  }

  /** `sql_number::to_string`. */
  function NumberText(x: Number): string {
    match x
    case Bool(b) => if b then "1" else "0"
    case Int(n) => IntText(n)
    case Long(n) => IntText(n)
    case ULong(n) => IntText(n)
    case LongLong(n) => IntText(n)
    case ULongLong(n) => IntText(n)
  }

  // ----- round trip -----

  lemma {:induction false} DigitPrefixAll(s: string)
    requires AllDigits(s)
    ensures DigitPrefix(s) == s
  {
    if s != [] {
      DigitPrefixAll(s[1..]);
    }
  }

  lemma ScanIntText(n: int)
    ensures Scan(IntText(n)) == Some((n < 0, if n < 0 then -n else n))
  {
    var m := if n < 0 then -n else n;
    var digits := NatText(m);
    ReadNatText(m);
    DigitPrefixAll(digits);
    assert IsDigit(digits[0]);
    if n < 0 {
      assert IntText(n)[1..] == digits;
    }
  }

  /** What parsing the decimal text of any integer gives, over the whole number line: the first of
      int, long and unsigned long that holds it; below the longs, a value off by 2^64; else nothing. */
  lemma ParseIntText(n: int)
    ensures ParseNumber(IntText(n)) ==
            if INT_MIN <= n <= INT_MAX then Ok(Int(n))
            else if LONG_MIN <= n <= LONG_MAX then Ok(Long(n))
            else if LONG_MAX < n <= ULONG_MAX then Ok(ULong(n))
            else if -ULONG_MAX <= n < LONG_MIN then Ok(ULong(n + ULONG_MAX + 1))
            else NotANumber
  {
    var m := if n < 0 then -n else n;
    var digits, text := NatText(m), IntText(n);
    ScanIntText(n);
    assert text[|text| - |digits|] == digits[0];
    assert forall i | 0 <= i < |text| :: text[i] == '-' || IsDigit(text[i]);
  }

  /** Parsing reprints to the same text exactly for the integers from -2^63 to 2^64-1. */
  lemma RoundTripIff(n: int)
    ensures (ParseNumber(IntText(n)).Ok? && NumberText(ParseNumber(IntText(n)).number) == IntText(n))
            <==> LONG_MIN <= n <= ULONG_MAX
  {
    ParseIntText(n);
    if -ULONG_MAX <= n < LONG_MIN {
      assert IntText(n)[0] == '-';
      assert IsDigit(IntText(n + ULONG_MAX + 1)[0]);
    }
  }
}
