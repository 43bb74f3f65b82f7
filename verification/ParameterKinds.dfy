/** What the two bindings know about the values they store: integer kinds and C texts. */
module ParameterKinds {

  /** The integer types that `sql_number` holds, on a platform with 64-bit `long` and signed `char`. */
  datatype IntKind =
    | Char | UChar | Bool | Short | UShort | Int | UInt | Long | ULong | LongLong | ULongLong

  function Size(kind: IntKind): nat {
    match kind
    case Char => 1
    case UChar => 1
    case Bool => 1
    case Short => 2
    case UShort => 2
    case Int => 4
    case UInt => 4
    case Long => 8
    case ULong => 8
    case LongLong => 8
    case ULongLong => 8
  }

  predicate IsUnsigned(kind: IntKind) {
    kind.UChar? || kind.UShort? || kind.UInt? || kind.ULong? || kind.ULongLong?
  }

  /** The number of values that so many bytes can tell apart. */
  function Modulus(size: nat): (m: nat)
    ensures m > 1 && m % 2 == 0
  {
    if size == 1 then 0x100
    else if size == 2 then 0x1_0000
    else if size == 4 then 0x1_0000_0000
    else 0x1_0000_0000_0000_0000
  }

  /** The numbers of the type. */
  predicate InRange(kind: IntKind, n: int) {
    var m := Modulus(Size(kind));
    if kind.Bool? then 0 <= n <= 1
    else if IsUnsigned(kind) then 0 <= n < m
    else -(m / 2) <= n < m / 2
  }

  /** The text that `strdup` copies: up to the first NUL. */
  function CText(s: string): (r: string)
    ensures |r| <= |s|
  {
    if s == [] || s[0] == 0 as char then [] else [s[0]] + CText(s[1..])
  }

  predicate HasNul(s: string) {
    0 as char in s
  }

  lemma {:induction false} CTextIff(s: string)
    ensures CText(s) == s <==> !HasNul(s)
  {
    if s != [] {
      CTextIff(s[1..]);
      assert s == [s[0]] + s[1..];
      if s[0] != 0 as char {
        assert CText(s)[1..] == CText(s[1..]);
      }
    }
  }
}
