/** Values in the arrays of the postgres binding: how they are written (src/postgres/binding.cpp:76-245)
    and how the binding reads them back (src/postgres/binding.cpp:23-71, 355-360). */
module PostgresCells {
  import opened SqlText
  import opened Operators
  import opened ParameterKinds
  import C = Calendar
  import D = Decimal
  import T = TimeText

  /** One position of the four arrays: text, type, length, format. */
  datatype Cell = Cell(value: Option<string>, oid: nat, length: nat, format: nat)

  const ZERO := Cell(None, 0, 0, 0)

  datatype FloatKind = Float | Double | LongDouble

  /** A value as the binding sees it; floating-point numbers, wide characters and times are already
      printed. */
  datatype Parameter =
    | Missing
    | Integer(kind: IntKind, n: int)
    | Floating(size: FloatKind, text: string)
    | WideChar(text: string)
    | Time(format: C.Format, text: string)
    | Chars(text: string)
    | Blob(bytes: string)

  const BOOLOID: nat := 16
  const BYTEAOID: nat := 17
  const CHAROID: nat := 18
  const INT8OID: nat := 20
  const INT2OID: nat := 21
  const INT4OID: nat := 23
  const TEXTOID: nat := 25
  const FLOAT4OID: nat := 700
  const FLOAT8OID: nat := 701
  const UNKNOWNOID: nat := 705
  const DATEOID: nat := 1082
  const TIMEOID: nat := 1083
  const TIMESTAMPOID: nat := 1114

  /** Type and length that `from_number` gives each integer; bool takes the length of a double, and long
      the type of an int. */
  function IntType(kind: IntKind): (r: (nat, nat))
    ensures r.0 != 0
  {
    match kind
    case Char => (CHAROID, 1)
    case UChar => (CHAROID, 1)
    case Bool => (BOOLOID, 8)
    case Short => (INT2OID, 2)
    case UShort => (INT2OID, 2)
    case Int => (INT4OID, 4)
    case UInt => (INT4OID, 4)
    case Long => (INT4OID, 8)
    case ULong => (INT4OID, 8)
    case LongLong => (INT8OID, 8)
    case ULongLong => (INT8OID, 8)
  }

  /** The text of an integer: a `char` prints as the character, an `unsigned char` as its number with a
      stray `c`, all others in decimal. */
  function IntegerText(kind: IntKind, n: int): string {
    match kind
    case Char => CText([(n % 0x100) as char])
    case UChar => D.IntText(n) + "c"
    case _ => D.IntText(n)
  }

  function FloatType(size: FloatKind): (r: (nat, nat))
    ensures r.0 != 0
  {
    match size
    case Float => (FLOAT4OID, 4)
    case Double => (FLOAT4OID, 8)
    case LongDouble => (FLOAT8OID, 16)
  }

  function TimeType(format: C.Format): (oid: nat)
    ensures oid != 0
  {
    if format == C.DATE then DATEOID else if format == C.TIME then TIMEOID else TIMESTAMPOID
  }

  /** `data_mapper::from_value`: every value, null included, has a type different from 0. */
  function Encode(p: Parameter): (c: Cell)
    ensures c.oid != 0
  {
    match p
    case Missing => Cell(None, UNKNOWNOID, 0, 0)
    case Integer(kind, n) => Cell(Some(IntegerText(kind, n)), IntType(kind).0, IntType(kind).1, 0)
    case Floating(size, text) => Cell(Some(text), FloatType(size).0, FloatType(size).1, 0)
    case WideChar(text) => Cell(Some(CText(text)), INT2OID, 4, 0)
    case Time(format, text) => Cell(Some(text), TimeType(format), 8, 0)
    case Chars(text) => Cell(Some(CText(text)), TEXTOID, |text|, 0)
    case Blob(bytes) => Cell(Some(bytes), BYTEAOID, |bytes|, 1)
  }

  // ----- reading -----

  /** `Escaped` is a byte text before it is unescaped, `Real` the text of a floating-point number,
      `Invalid` the thrown error. */
  datatype Decoded = Nothing | Whole(n: int) | Real(text: string) | Text(s: string) | Escaped(text: string) | Invalid

  /** The integers, and strangely the timestamps, are read with `stol`. */
  predicate ReadAsInteger(oid: nat) {
    oid in {BOOLOID, CHAROID, INT8OID, INT2OID, INT4OID, TIMESTAMPOID}
  }

  /** `data_mapper::to_value`. */
  function Decode(c: Cell): Decoded {
    if c.value.None? || c.length == 0 || c.oid == UNKNOWNOID then Nothing
    else
      var text := c.value.value;
      if c.oid == BYTEAOID then Escaped(text)
      else if ReadAsInteger(c.oid) then
        (match D.Signed(text, D.LONG_MIN, D.LONG_MAX)
         case Some(n) => Whole(n)
         case None => Invalid)
      else if c.oid == FLOAT4OID || c.oid == FLOAT8OID then Real(text)
      else Text(text)
  }

  // ----- reading what was written -----

  /** Every integer is read back, but for a `char`, and for those beyond the longs. */
  lemma IntegerReadsBackIff(kind: IntKind, n: int)
    requires InRange(kind, n)
    ensures Decode(Encode(Integer(kind, n))) == Whole(n) <==> !kind.Char? && n <= D.LONG_MAX
  {
    D.ScanIntText(n);
    match kind
    case Char => CharacterIsNoNumber(n);
    case UChar => StrayLetter(n);
    case _ =>
  }

  lemma CharacterIsNoNumber(n: int)
    requires -0x80 <= n < 0x80
    ensures D.Signed(IntegerText(Char, n), D.LONG_MIN, D.LONG_MAX) != Some(n)
  {
    var c := (n % 0x100) as char;
    var text := IntegerText(Char, n);
    if n == 0 {
      assert c == 0 as char && text == [];
    } else {
      assert [c][1..] == [] && text == [c];
      if D.IsDigit(c) {
        assert D.SkipSpaces(text) == text && D.DigitPrefix(text) == text;
        assert D.ReadDigits(text, 0) == D.DigitValue(c) < 10 && 48 <= n;
      } else if D.IsSpace(c) {
        assert D.SkipSpaces(text) == [];
      }
    }
  }

  lemma StrayLetter(n: int)
    requires 0 <= n < 0x100
    ensures D.Scan(D.IntText(n) + "c") == Some((false, n))
  {
    D.ReadNatText(n);
    NumberThen(D.NatText(n), "c");
  }

  lemma {:induction false} DigitsThen(digits: string, rest: string)
    requires D.AllDigits(digits) && (rest == [] || !D.IsDigit(rest[0]))
    ensures D.DigitPrefix(digits + rest) == digits
    decreases |digits|
  {
    if digits == [] {
      assert digits + rest == rest;
    } else {
      assert (digits + rest)[0] == digits[0] && (digits + rest)[1..] == digits[1..] + rest;
      DigitsThen(digits[1..], rest);
    }
  }

  /** The numbers that the server's type holds. */
  predicate ServerHolds(oid: nat, n: int) {
    if oid == INT2OID then -0x8000 <= n < 0x8000
    else if oid == INT4OID then -0x8000_0000 <= n < 0x8000_0000
    else if oid == INT8OID then D.LONG_MIN <= n <= D.LONG_MAX
    else oid == BOOLOID && 0 <= n <= 1
  }

  /** The declared type holds every number of the C++ type for bool, short, int and long long; an unsigned
      one only up to half its range, and a long only if it is an int. */
  lemma TypeHoldsIff(kind: IntKind, n: int)
    requires InRange(kind, n) && !kind.Char? && !kind.UChar?
    ensures ServerHolds(IntType(kind).0, n)
            <==> match kind
                 case UShort => n < 0x8000
                 case UInt => n < 0x8000_0000
                 case Long => InRange(Int, n)
                 case ULong => n < 0x8000_0000
                 case ULongLong => n <= D.LONG_MAX
                 case _ => true
  {
  }

  /** A text is read back exactly when it is not empty and holds no NUL; an empty one is read as null. */
  lemma TextReadsBackIff(s: string)
    ensures Decode(Encode(Chars(s))) == Text(s) <==> s != "" && !HasNul(s)
    ensures Decode(Encode(Chars(""))) == Nothing
  {
    CTextIff(s);
  }

  /** What `PQexecParams` sends for a position: in text format the characters up to the first NUL, in
      binary format so many bytes as the length says. */
  function Passed(c: Cell): Option<string> {
    match c.value
    case None => None
    case Some(text) =>
      if c.format == 0 then Some(CText(text))
      else if c.length <= |text| then Some(text[..c.length])
      else None
  }

  lemma CTextAgain(s: string)
    ensures CText(CText(s)) == CText(s)
  {
  }

  lemma DigitsHaveNoNul(s: string)
    requires D.AllDigits(s)
    ensures !HasNul(s)
  {
  }

  lemma IntTextHasNoNul(n: int)
    ensures !HasNul(D.IntText(n)) && !HasNul(D.IntText(n) + "c")
  {
    D.ReadNatText(if n < 0 then -n else n);
    DigitsHaveNoNul(D.NatText(if n < 0 then -n else n));
  }

  /** The server gets every integer but a `char` in decimal, an `unsigned char` with a letter after it; all
      bytes of a blob; a text exactly when it holds no NUL, the empty one included; nothing for a null. */
  lemma ServerGets(kind: IntKind, n: int, s: string, bytes: string)
    ensures !kind.Char? ==> Passed(Encode(Integer(kind, n))) == Some(D.IntText(n) + if kind.UChar? then "c" else "")
    ensures Passed(Encode(Chars(s))) == Some(s) <==> !HasNul(s)
    ensures Passed(Encode(Blob(bytes))) == Some(bytes) && Passed(Encode(Missing)) == None
  {
    var text := IntegerText(kind, n);
    assert D.IntText(n) + "" == D.IntText(n);
    IntTextHasNoNul(n);
    CTextIff(text);
    CTextIff(s);
    CTextAgain(s);
    assert bytes[..|bytes|] == bytes;
  }

  /** Other kinds: the cell keeps the text, and its type decides the class of what is read. */
  lemma KindIsRead(text: string, size: FloatKind, bytes: string)
    ensures Decode(Encode(Missing)) == Nothing
    ensures Decode(Encode(Floating(size, text))) == Real(text)
    ensures Decode(Encode(Time(C.DATE, text))) == Text(text) == Decode(Encode(Time(C.TIME, text)))
    ensures bytes != "" ==> Decode(Encode(Blob(bytes))) == Escaped(bytes)
  {
  }

  /** A date and time is read back as the number of its year. */
  lemma TimestampReadsAsYear(t: C.Tm, format: C.Format)
    requires C.ValidTm(t) && T.FourDigitYear(t) && (format == C.DATETIME || format == C.TIMESTAMP)
    ensures Decode(Encode(Time(format, T.TmText(t, format)))) == Whole(t.year + 1900)
  {
    T.DateTextSays(t);
    var text := T.TmText(t, format);
    var year, rest := text[..4], text[4..];
    assert year == T.DateText(t)[..4] && rest[0] == '-' && text == year + rest;
    NumberThen(year, rest);
  }

  lemma NumberThen(digits: string, rest: string)
    requires digits != [] && D.AllDigits(digits) && (rest == [] || !D.IsDigit(rest[0]))
    ensures D.Scan(digits + rest) == Some((false, D.ReadDigits(digits, 0)))
  {
    DigitsThen(digits, rest);
    assert (digits + rest)[0] == digits[0];
  }

  // ----- the values of a query -----

  function Seen(v: Value): Parameter {
    match v
    case Null => Missing
    case Number(n) => Integer(Int, n)
    case Str(s) => Chars(s)
  }

  /** The value itself, as reading should return it. */
  function ValueOf(v: Value): Decoded {
    match v
    case Null => Nothing
    case Number(n) => Whole(n)
    case Str(s) => Text(s)
  }

  /** A number that a `long` holds, a text that is not empty and has no NUL. */
  predicate Storable(v: Value) {
    match v
    case Null => true
    case Number(n) => D.LONG_MIN <= n <= D.LONG_MAX
    case Str(s) => s != "" && !HasNul(s)
  }

  lemma ValueReadsBackIff(v: Value)
    ensures Decode(Encode(Seen(v))) == ValueOf(v) <==> Storable(v)
  {
    match v
    case Null =>
    case Number(n) => D.ScanIntText(n);
    case Str(s) => TextReadsBackIff(s);
  }
}
