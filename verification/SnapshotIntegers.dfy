/**
 The integer profile of snapshot queries: type names, exact ranges, the smallest type of a
 literal, and the canonical decimal spelling that Prepare hands to accurateCast.
 */
module SnapshotIntegers {
  import opened Common

  /**
   A column type. The eight integer names that snapshotInteger knows are constructors; every
   other type keeps its spelling.
   */
  datatype Type =
    | Int8 | Int16 | Int32 | Int64
    | UInt8 | UInt16 | UInt32 | UInt64
    | Named(name: string)

  /** The width half of snapshotInteger: 0 for a type that is not an integer. */
  function Bits(t: Type): nat
  {
    match t
    case Int8 => 8
    case Int16 => 16
    case Int32 => 32
    case Int64 => 64
    case UInt8 => 8
    case UInt16 => 16
    case UInt32 => 32
    case UInt64 => 64
    case Named(_) => 0
  }

  predicate Signed(t: Type)
  {
    t.Int8? || t.Int16? || t.Int32? || t.Int64?
  }

  predicate IsInteger(t: Type)
  {
    Bits(t) != 0
  }

  /** The number of values of an integer type: 1 << Bits(t). */
  function Modulus(t: Type): int
  {
    match Bits(t)
    case 8 => 0x100
    case 16 => 0x1_0000
    case 32 => 0x1_0000_0000
    case 64 => 0x1_0000_0000_0000_0000
    case _ => 0
  }

  /** inSnapshotRange: n fits the integer type t. */
  predicate InRange(n: int, t: Type)
  {
    if !IsInteger(t) then false
    else if Signed(t) then -(Modulus(t) / 2) <= n <= Modulus(t) / 2 - 1
    else 0 <= n <= Modulus(t) - 1
  }

  /** smallestSnapshotInteger: the first of the 8, 16, 32 and 64 bit types of n's sign that holds n. */
  function Smallest(n: int): Option<Type>
  {
    if n < 0 then
      if InRange(n, Int8) then Some(Int8)
      else if InRange(n, Int16) then Some(Int16)
      else if InRange(n, Int32) then Some(Int32)
      else if InRange(n, Int64) then Some(Int64)
      else None
    else
      if InRange(n, UInt8) then Some(UInt8)
      else if InRange(n, UInt16) then Some(UInt16)
      else if InRange(n, UInt32) then Some(UInt32)
      else if InRange(n, UInt64) then Some(UInt64)
      else None
  }

  /** A literal in the UInt64 or Int64 range has a type that holds it, and no narrower type of that sign does. */
  lemma SmallestIsNarrowest(n: int, t: Type)
    requires InRange(n, t)
    ensures Smallest(n).Some? && InRange(n, Smallest(n).value)
    ensures Signed(Smallest(n).value) <==> n < 0
    ensures Signed(t) == (n < 0) ==> Bits(Smallest(n).value) <= Bits(t)
  {
  }

  /** snapshotDecimal: a non-empty run of ASCII digits. */
  predicate IsDecimal(s: string)
  {
    s != "" && forall i :: 0 <= i < |s| ==> '0' <= s[i] <= '9'
  }

  function DigitValue(c: char): nat
    requires '0' <= c <= '9'
  {
    c as int - '0' as int
  }

  function DigitChar(d: nat): (c: char)
    requires d < 10
    ensures '0' <= c <= '9' && DigitValue(c) == d
  {
    (d + '0' as int) as char
  }

  /** big.Int.SetString(s, 10) on a run of digits. */
  function ParseDigits(s: string): int
    requires forall i :: 0 <= i < |s| ==> '0' <= s[i] <= '9'
  {
    if s == "" then 0 else 10 * ParseDigits(s[..|s| - 1]) + DigitValue(s[|s| - 1])
  }

  /** big.Int.String of a non-negative value: no leading zero. */
  function DigitString(n: nat): (s: string)
    ensures IsDecimal(s)
  {
    if n < 10 then [DigitChar(n)] else DigitString(n / 10) + [DigitChar(n % 10)]
  }

  function DecimalString(n: int): string
  {
    if n < 0 then "-" + DigitString(-n) else DigitString(n)
  }

  /** The exact decimal reading accurateCast makes of a string constant. */
  function ParseDecimal(s: string): Option<int>
  {
    if IsDecimal(s) then Some(ParseDigits(s))
    else if |s| > 1 && s[0] == '-' && IsDecimal(s[1..]) then Some(-ParseDigits(s[1..]))
    else None
  }

  lemma {:induction false} DigitsRoundTrip(n: nat)
    ensures ParseDigits(DigitString(n)) == n
  {
    var s := DigitString(n);
    if n < 10 {
      assert s[..|s| - 1] == "";
    } else {
      DigitsRoundTrip(n / 10);
      assert s[..|s| - 1] == DigitString(n / 10);
    }
  }

  /** The decimal spelling of a value reads back as that value, for every integer. */
  lemma DecimalRoundTrip(n: int)
    ensures ParseDecimal(DecimalString(n)) == Some(n)
  {
    if n < 0 {
      DigitsRoundTrip(-n);
      var s := DecimalString(n);
      assert s[0] == '-';
      assert s[1..] == DigitString(-n);
    } else {
      DigitsRoundTrip(n);
    }
  }
}
