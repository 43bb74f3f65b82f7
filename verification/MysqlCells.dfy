/** Values in the cells of the mysql binding: how they are written (src/mysql/binding.cpp:333-363,
    368-495) and how the binding reads them back (src/mysql/binding.cpp:128-249, 606-612). */
module MysqlCells {
  import opened SqlText
  import opened Operators
  import opened ParameterKinds
  import C = Calendar

  /** A value as the binding sees it. */
  datatype Parameter =
    | Missing
    | Integer(kind: IntKind, n: int)
    | Time(time: C.SqlTime)
    | Chars(s: string)
    | Blob(bytes: string)

  /** The memory behind the buffer pointer: the bits of an integer, a C text, plain bytes, a broken-down
      time. */
  datatype Buffer = Bits(bits: nat) | CString(s: string) | Memory(bytes: string) | Moment(time: C.TimeBuffer)

  datatype Cell = Cell(bufferType: nat, buffer: Option<Buffer>, bufferLength: nat, length: Option<nat>, isUnsigned: bool)

  const ZERO := Cell(0, None, 0, None, false)

  const TYPE_TINY: nat := 1
  const TYPE_SHORT: nat := 2
  const TYPE_LONG: nat := 3
  const TYPE_NULL: nat := 6
  const TYPE_TIMESTAMP: nat := 7
  const TYPE_LONGLONG: nat := 8
  const TYPE_DATE: nat := 10
  const TYPE_TIME: nat := 11
  const TYPE_DATETIME: nat := 12
  const TYPE_BLOB: nat := 252
  const TYPE_STRING: nat := 254

  const TIME_SIZE: nat := 40

  function IntType(kind: IntKind): nat {
    match kind
    case Char => TYPE_TINY
    case UChar => TYPE_TINY
    case Bool => TYPE_TINY
    case Short => TYPE_SHORT
    case UShort => TYPE_SHORT
    case Int => TYPE_LONG
    case UInt => TYPE_LONG
    case Long => TYPE_LONG
    case ULong => TYPE_LONG
    case LongLong => TYPE_LONGLONG
    case ULongLong => TYPE_LONGLONG
  }

  function TimeType(kind: C.BufferType): nat {
    match kind
    case TypeDate => TYPE_DATE
    case TypeTime => TYPE_TIME
    case TypeDatetime => TYPE_DATETIME
    case TypeTimestamp => TYPE_TIMESTAMP
  }

  /** `data_mapper::from_value` on a cleared cell. */
  function Encode(p: Parameter): Cell {
    match p
    case Missing => Cell(TYPE_NULL, None, 0, None, false)
    case Integer(kind, n) =>
      Cell(IntType(kind), Some(Bits(n % Modulus(Size(kind)))), Size(kind), None, IsUnsigned(kind))
    case Time(time) =>
      var b := C.SetTime(time);
      Cell(TimeType(b.kind), Some(Moment(b)), TIME_SIZE, None, false)
    case Chars(s) => Cell(TYPE_STRING, Some(CString(CText(s))), |s|, Some(|s|), false)
    case Blob(bytes) => Cell(TYPE_BLOB, Some(Memory(bytes)), |bytes|, Some(|bytes|), false)
  }

  // ----- reading -----

  datatype Decoded =
    | Nothing
    | Whole(n: int)
    | Instant(time: C.SqlTime)
    | Text(s: string)
    | Bytes(bytes: string)
    | Garbage

  /** `to_number<T>` for a type of this size: the bits as an unsigned or a two's complement number. */
  function ToNumber(c: Cell, size: nat): Decoded {
    match c.buffer
    case Some(Bits(bits)) =>
      var m := Modulus(size);
      var u := bits % m;
      Whole(if c.isUnsigned || u < m / 2 then u else u - m)
    case _ => Garbage
  }

  /** `parse_time`: the seconds by `timegm`, the format by the type of the buffer. */
  function ToInstant(c: Cell, kind: C.BufferType): Decoded {
    match c.buffer
    case Some(Moment(b)) =>
      if 0 <= C.BufferTm(b).mon < 12 then Instant(C.ParseTime(b.(kind := kind))) else Garbage
    case _ => Garbage
  }

  /** `binding::to_value`. */
  function Decode(c: Cell): Decoded {
    if c.buffer.None? || c.bufferType == TYPE_NULL then Nothing
    else if c.bufferType == TYPE_TINY || c.bufferType == TYPE_SHORT || c.bufferType == TYPE_LONG then
      ToNumber(c, if c.bufferLength == 1 || c.bufferLength == 2 || c.bufferLength == 8 then c.bufferLength else 4)
    else if c.bufferType == TYPE_LONGLONG then ToNumber(c, 8)
    else if c.bufferType == TYPE_TIME then ToInstant(c, C.TypeTime)
    else if c.bufferType == TYPE_DATE then ToInstant(c, C.TypeDate)
    else if c.bufferType == TYPE_TIMESTAMP then ToInstant(c, C.TypeTimestamp)
    else if c.bufferType == TYPE_DATETIME then ToInstant(c, C.TypeDatetime)
    else if c.bufferType == TYPE_BLOB then
      (match c.buffer.value
       case Memory(bytes) => if c.length.Some? && c.length.value <= |bytes| then Bytes(bytes[..c.length.value]) else Bytes("")
       case _ => Garbage)
    else if c.buffer.value.CString? then Text(c.buffer.value.s)
    else Garbage
  }

  // ----- reading what was written -----

  /** The value itself, as reading should return it. */
  function Meaning(p: Parameter): Decoded {
    match p
    case Missing => Nothing
    case Integer(_, n) => Whole(n)
    case Time(time) => Instant(time)
    case Chars(s) => Text(s)
    case Blob(bytes) => Bytes(bytes)
  }

  /** A value of its C++ type: an integer in range, a time whose year fits. */
  predicate IsValue(p: Parameter) {
    match p
    case Integer(kind, n) => InRange(kind, n)
    case Time(time) =>
      var year := C.GmTime(time.value).year;
      -0x8000_0000 <= year && year + 1900 < 0x8000_0000
    case _ => true
  }

  lemma IntegerReadsBack(kind: IntKind, n: int)
    ensures Decode(Encode(Integer(kind, n))) == Whole(n)
            <==> if kind.Bool? then -0x80 <= n < 0x80 else InRange(kind, n)
  {
    WrapsOnce(n, Size(kind));
  }

  /** Reducing modulo m and taking the upper half as negative gives back exactly the numbers from -m/2 to
      m/2; without the latter exactly those from 0 to m. */
  predicate Wraps(n: int, m: nat)
    requires m > 0
  {
    && 0 <= n % m < m && (n % m) % m == n % m && (n % m - n) % m == 0
    && (n % m == n <==> 0 <= n < m)
    && ((if n % m < m / 2 then n % m else n % m - m) == n <==> -(m / 2) <= n < m / 2)
  }

  lemma WrapsOnce(n: int, size: nat)
    ensures Wraps(n, Modulus(size))
  {
    if size == 1 {
      WrapsByte(n);
    } else if size == 2 {
      WrapsShort(n);
    } else if size == 4 {
      WrapsInt(n);
    } else {
      WrapsLong(n);
    }
  }

  lemma WrapsByte(n: int)
    ensures Wraps(n, 0x100)
  {
  }

  lemma WrapsShort(n: int)
    ensures Wraps(n, 0x1_0000)
  {
  }

  lemma WrapsInt(n: int)
    ensures Wraps(n, 0x1_0000_0000)
  {
  }

  lemma WrapsLong(n: int)
    ensures Wraps(n, 0x1_0000_0000_0000_0000)
  {
  }

  /** What the server finds: so many bytes, in two's complement the number modulo their range. */
  lemma StoredBits(kind: IntKind, n: int)
    ensures var c := Encode(Integer(kind, n));
            && c.bufferLength == Size(kind) && c.buffer.Some? && c.buffer.value.Bits?
            && c.buffer.value.bits < Modulus(Size(kind)) && (c.buffer.value.bits - n) % Modulus(Size(kind)) == 0
            && (c.isUnsigned <==> IsUnsigned(kind))
  {
    WrapsOnce(n, Size(kind));
  }

  lemma TimeReadsBack(time: C.SqlTime)
    requires IsValue(Time(time))
    ensures Decode(Encode(Time(time))) == Instant(time)
  {
    C.StoredTimeReadsBack(time);
  }

  /** Reading what was written returns every value: integers of any type, times, bytes, and texts exactly
      when they hold no NUL. */
  lemma DecodeEncodeIff(p: Parameter)
    requires IsValue(p)
    ensures Decode(Encode(p)) == Meaning(p) <==> (p.Chars? ==> !HasNul(p.s))
  {
    match p
    case Integer(kind, n) => IntegerReadsBack(kind, n);
    case Time(time) => TimeReadsBack(time);
    case Chars(s) => CTextIff(s);
    case Blob(bytes) => assert bytes[..|bytes|] == bytes;
    case Missing =>
  }

  // ----- the values of a query -----

  function Seen(v: Value): Parameter {
    match v
    case Null => Missing
    case Number(n) => Integer(Int, n)
    case Str(s) => Chars(s)
  }

  function ValueOf(v: Value): Decoded {
    Meaning(Seen(v))
  }

  /** A number that an `int` holds, a text without NUL. */
  predicate Storable(v: Value) {
    match v
    case Null => true
    case Number(n) => InRange(Int, n)
    case Str(s) => !HasNul(s)
  }

  lemma ValueReadsBackIff(v: Value)
    ensures Decode(Encode(Seen(v))) == ValueOf(v) <==> Storable(v)
  {
    match v
    case Null =>
    case Number(n) => IntegerReadsBack(Int, n);
    case Str(s) => CTextIff(s);
  }
}
