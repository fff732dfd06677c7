/**
 The key of a numeric literal. A decimal, hexadecimal or binary integer of 64 bits is keyed by its value, every
 other literal by its exact rational value: two literals get one key exactly when they are of one class and value.
 */
module NumberKey {
  import opened Common
  import opened Rational
  import opened SnapshotIntegers

  // ---------------------------------------------------------------------------------------
  // Digits and underscores

  /** unhexDigit: the value of a hexadecimal digit, 0xFF of any other character. */
  function Unhex(c: char): (n: nat)
    ensures n < 16 || n == 0xFF
  {
    if '0' <= c <= '9' then c as int - '0' as int
    else if 'a' <= c <= 'f' then c as int - 'a' as int + 10
    else if 'A' <= c <= 'F' then c as int - 'A' as int + 10
    else 0xFF
  }

  predicate IsDigitOf(base: nat, c: char)
  {
    Unhex(c) < base
  }

  predicate AreDigits(base: nat, s: string)
  {
    forall i :: 0 <= i < |s| ==> IsDigitOf(base, s[i])
  }

  /** The number a run of digits spells. */
  function ValueIn(base: nat, s: string): nat
    requires AreDigits(base, s)
  {
    if s == "" then 0 else base * ValueIn(base, s[..|s| - 1]) + Unhex(s[|s| - 1])
  }

  /** The radix whose digits an underscore must stand between. */
  function Radix(raw: string): nat
  {
    if |raw| > 1 && raw[0] == '0' && (raw[1] == 'x' || raw[1] == 'X') then 16
    else if |raw| > 1 && raw[0] == '0' && (raw[1] == 'b' || raw[1] == 'B') then 2
    else 10
  }

  /** No underscore stands first, last, or beside anything but a digit. */
  predicate UnderscoresFit(raw: string)
  {
    forall i :: 0 <= i < |raw| && raw[i] == '_' ==>
      0 < i < |raw| - 1 && IsDigitOf(Radix(raw), raw[i - 1]) && IsDigitOf(Radix(raw), raw[i + 1])
  }

  /** underscoresBetweenDigits. */
  method UnderscoresBetweenDigits(raw: string) returns (ok: bool)
    ensures ok <==> UnderscoresFit(raw)
  {
    var base := Radix(raw);
    var i := 0;
    while i < |raw|
      invariant 0 <= i <= |raw|
      invariant forall k :: 0 <= k < i && raw[k] == '_' ==>
        0 < k < |raw| - 1 && IsDigitOf(base, raw[k - 1]) && IsDigitOf(base, raw[k + 1])
    {
      if raw[i] == '_' && (i == 0 || i == |raw| - 1 || !IsDigitOf(base, raw[i - 1]) || !IsDigitOf(base, raw[i + 1])) {
        return false;
      }
      i := i + 1;
    }
    return true;
  }

  function WithoutUnderscores(s: string): (r: string)
    ensures '_' !in r
  {
    if s == "" then "" else WithoutUnderscores(s[..|s| - 1]) + (if s[|s| - 1] == '_' then "" else [s[|s| - 1]])
  }

  // ---------------------------------------------------------------------------------------
  // The literal's value

  /** What a literal denotes: an unsigned integer of 64 bits, or a Float64's exact value. */
  datatype Number = UInt(n: nat) | Float(value: Fraction)

  const MAX_UINT64 := 0xFFFF_FFFF_FFFF_FFFF

  function Pow(base: nat, k: nat): (r: nat)
    ensures base > 0 ==> r > 0
  {
    if k == 0 then 1
    else
      var half := Pow(base, k - 1);
      assert base > 0 ==> base * half > 0 by {
        if base > 0 {
          Product(base - 1, half);
          assert (base - 1) * half == base * half - half;
        }
      }
      base * half
  }

  /** m times base to the power e. */
  function Scaled(m: nat, base: nat, e: int): (r: Fraction)
    requires base > 0
    ensures r.den > 0
  {
    if e >= 0 then Fraction(m * Pow(base, e), 1) else Fraction(m, Pow(base, -e))
  }

  /** The length of the run of digits s starts with. */
  function Run(base: nat, s: string): (n: nat)
    ensures n <= |s| && AreDigits(base, s[..n])
    ensures n < |s| ==> !IsDigitOf(base, s[n])
  {
    if s == "" || !IsDigitOf(base, s[0]) then 0
    else
      var n := Run(base, s[1..]);
      assert s[..n + 1] == [s[0]] + s[1..][..n];
      n + 1
  }

  /** Digits with at most one point among, before or after them. */
  datatype Mantissa = Mantissa(digits: string, fraction: nat, length: nat)

  function MantissaOf(base: nat, s: string): (r: Option<Mantissa>)
    ensures r.Some? ==> AreDigits(base, r.value.digits) && |r.value.digits| <= r.value.length <= |s|
  {
    var i := Run(base, s);
    if i < |s| && s[i] == '.' then
      var j := Run(base, s[i + 1..]);
      if i == 0 && j == 0 then None else Some(Mantissa(s[..i] + s[i + 1..][..j], j, i + 1 + j))
    else if i == 0 then None
    else Some(Mantissa(s[..i], 0, i))
  }

  /** A sign and one to most digits, after its marker. */
  function ExponentOf(s: string, most: nat): Option<int>
  {
    var signed := |s| > 0 && (s[0] == '+' || s[0] == '-');
    var digits := if signed then s[1..] else s;
    if 1 <= |digits| <= most && AreDigits(10, digits) then
      var value: int := ValueIn(10, digits);
      Some(if signed && s[0] == '-' then -value else value)
    else None
  }

  /** decimalFloatForm, and its value. */
  function DecimalFloat(s: string): (r: Option<Fraction>)
    ensures r.Some? ==> r.value.den > 0
  {
    var m := MantissaOf(10, s);
    if m.None? then None
    else
      var rest := s[m.value.length..];
      var value := ValueIn(10, m.value.digits);
      if rest == "" then Some(Scaled(value, 10, 0 - m.value.fraction))
      else if rest[0] != 'e' && rest[0] != 'E' then None
      else
        match ExponentOf(rest[1..], 3)
        case Some(e) => Some(Scaled(value, 10, e - m.value.fraction))
        case None => None
  }

  predicate HasHexPrefix(s: string)
  {
    |s| > 2 && s[0] == '0' && (s[1] == 'x' || s[1] == 'X')
  }

  /** hexFloatForm: its mantissa, exponent and value. */
  function HexFloat(s: string): (r: Option<Fraction>)
    ensures r.Some? ==> r.value.den > 0
  {
    if !HasHexPrefix(s) then None
    else
      var m := MantissaOf(16, s[2..]);
      if m.None? then None
      else
        var rest := s[2..][m.value.length..];
        if rest == "" || (rest[0] != 'p' && rest[0] != 'P') then None
        else
          match ExponentOf(rest[1..], 4)
          case Some(e) => Some(Scaled(ValueIn(16, m.value.digits), 2, e - 4 * m.value.fraction))
          case None => None
  }

  predicate IsBinary(s: string)
  {
    |s| >= 3 && s[..2] == "0b" && AreDigits(2, s[2..])
  }

  function Whole(n: nat): Number
  {
    if n <= MAX_UINT64 then UInt(n) else Float(Fraction(n, 1))
  }

  /** The cases of numberKey on a literal without underscores. */
  function NumberOf(s: string): (r: Option<Number>)
    ensures r.Some? && r.value.Float? ==> r.value.value.den > 0
    ensures r.Some? && r.value.UInt? ==> r.value.n <= MAX_UINT64
  {
    if s != "" && AreDigits(10, s) then Some(Whole(ValueIn(10, s)))
    else if HasHexPrefix(s) && AreDigits(16, s[2..]) then Some(Whole(ValueIn(16, s[2..])))
    else if IsBinary(s) then Some(Whole(ValueIn(2, s[2..])))
    else if DecimalFloat(s).Some? then Some(Float(DecimalFloat(s).value))
    else if HexFloat(s).Some? then Some(Float(HexFloat(s).value))
    else None
  }

  function Literal(raw: string): (r: Option<Number>)
    ensures r.Some? && r.value.Float? ==> r.value.value.den > 0
  {
    if UnderscoresFit(raw) then NumberOf(WithoutUnderscores(raw)) else None
  }

  // ---------------------------------------------------------------------------------------
  // The key

  /** big.Rat.RatString of a fraction in lowest terms. */
  function RatString(r: Fraction): string
  {
    if r.den == 1 then DigitString(r.num) else DigitString(r.num) + "/" + DigitString(r.den)
  }

  function KeyOf(n: Number): string
    requires n.Float? ==> n.value.den > 0
  {
    match n
    case UInt(k) => DigitString(k)
    case Float(v) => "F" + RatString(Reduced(v))
  }

  /** numberKey. */
  function NumberKey(raw: string): Option<string>
  {
    match Literal(raw)
    case Some(n) => Some(KeyOf(n))
    case None => None
  }

  /** The same class and the same exact value. */
  predicate Same(a: Number, b: Number)
  {
    || (a.UInt? && b.UInt? && a.n == b.n)
    || (a.Float? && b.Float? && SameValue(a.value, b.value))
  }

  lemma DigitStringInjective(m: nat, n: nat)
    ensures DigitString(m) == DigitString(n) <==> m == n
  {
    hide DigitString, ParseDigits;
    DigitsRoundTrip(m);
    DigitsRoundTrip(n);
  }

  /** The slash stands where the first number ends. */
  lemma SlashSplits(a: string, b: string, c: string, d: string)
    requires IsDecimal(a) && IsDecimal(c) && a + "/" + b == c + "/" + d
    ensures a == c && b == d
  {
    var s := a + "/" + b;
    assert s[|a|] == '/' && s[|c|] == '/';
    assert forall i :: 0 <= i < |a| ==> s[i] != '/';
    assert forall i :: 0 <= i < |c| ==> (c + "/" + d)[i] != '/';
    assert |a| == |c|;
    assert s[..|a|] == a && s[..|c|] == c;
    assert s[|a| + 1..] == b && s[|c| + 1..] == d;
  }

  lemma RatStringInjective(a: Fraction, b: Fraction)
    ensures RatString(a) == RatString(b) <==> a == b
  {
    hide DigitString;
    DigitStringInjective(a.num, b.num);
    DigitStringInjective(a.den, b.den);
    var p, q, r, t := DigitString(a.num), DigitString(a.den), DigitString(b.num), DigitString(b.den);
    assert '/' !in p && '/' !in r;
    assert (p + "/" + q)[|p|] == '/' && (r + "/" + t)[|r|] == '/';
    if a.den != 1 && b.den != 1 && p + "/" + q == r + "/" + t {
      SlashSplits(p, q, r, t);
    }
  }

  /** Two literals' keys are equal if and only if they are of one class and denote the same exact value. */
  lemma KeyIsCanonical(a: Number, b: Number)
    requires a.Float? ==> a.value.den > 0
    requires b.Float? ==> b.value.den > 0
    ensures KeyOf(a) == KeyOf(b) <==> Same(a, b)
  {
    hide DigitString, RatString, Reduced;
    assert ("F" + RatString(Reduced(Fraction(0, 1))))[0] == 'F';
    if a.UInt? && b.UInt? {
      DigitStringInjective(a.n, b.n);
    } else if a.Float? && b.Float? {
      ReducedIsCanonical(a.value, b.value);
      RatStringInjective(Reduced(a.value), Reduced(b.value));
      assert ("F" + RatString(Reduced(a.value)))[1..] == RatString(Reduced(a.value));
      assert ("F" + RatString(Reduced(b.value)))[1..] == RatString(Reduced(b.value));
    } else if a.UInt? {
      assert KeyOf(a)[0] != 'F' && KeyOf(b)[0] == 'F';
    } else {
      assert KeyOf(b)[0] != 'F' && KeyOf(a)[0] == 'F';
    }
  }

  /** Accepted literals, whatever their radix, underscores, zeros and exponents, share a key exactly when they mean the same. */
  lemma NumberKeyIsCanonical(raw: string, other: string)
    requires NumberKey(raw).Some? && NumberKey(other).Some?
    ensures NumberKey(raw) == NumberKey(other) <==> Same(Literal(raw).value, Literal(other).value)
  {
    hide Literal, KeyOf;
    KeyIsCanonical(Literal(raw).value, Literal(other).value);
  }

  // ---------------------------------------------------------------------------------------
  // Spellings of one value

  lemma {:induction false} ValueAfterZero(base: nat, s: string)
    requires base >= 1 && AreDigits(base, s)
    ensures AreDigits(base, "0" + s) && ValueIn(base, "0" + s) == ValueIn(base, s)
  {
    var z := "0" + s;
    if s == "" {
      assert z == "0" && z[..0] == "";
      assert base * 0 == 0;
    } else {
      assert z[..|z| - 1] == "0" + s[..|s| - 1];
      ValueAfterZero(base, s[..|s| - 1]);
    }
  }

  /** Leading zeros of an integer do not count. */
  lemma LeadingZeroIgnored(s: string)
    requires s != "" && AreDigits(10, s)
    ensures NumberKey("0" + s) == NumberKey(s) && NumberKey(s).Some?
  {
    hide DigitString;
    ValueAfterZero(10, s);
    NoUnderscores(10, s);
    NoUnderscores(10, "0" + s);
  }

  lemma {:induction false} NothingRemoved(s: string)
    requires '_' !in s
    ensures WithoutUnderscores(s) == s && UnderscoresFit(s)
  {
    if s != "" {
      NothingRemoved(s[..|s| - 1]);
      assert s == s[..|s| - 1] + [s[|s| - 1]];
    }
  }

  lemma NoUnderscores(base: nat, s: string)
    requires base <= 16 && AreDigits(base, s)
    ensures WithoutUnderscores(s) == s && UnderscoresFit(s)
  {
    assert forall i :: 0 <= i < |s| ==> s[i] != '_';
    NothingRemoved(s);
  }

  /** Well-placed underscores do not count. */
  lemma UnderscoresIgnored(raw: string)
    requires UnderscoresFit(raw)
    ensures NumberKey(raw) == NumberKey(WithoutUnderscores(raw))
  {
    hide NumberOf, UnderscoresFit;
    NothingRemoved(WithoutUnderscores(raw));
  }

  /** Every 64-bit integer written in decimal is its own key. */
  lemma IntegerIsItsKey(n: nat)
    requires n <= MAX_UINT64
    ensures NumberKey(DigitString(n)) == Some(DigitString(n))
  {
    var s := DigitString(n);
    DigitsRoundTrip(n);
    DecimalValue(s);
    NoUnderscores(10, s);
    hide DigitString;
  }

  /** The two readings of decimal digits are one. */
  lemma {:induction false} DecimalValue(s: string)
    requires forall i :: 0 <= i < |s| ==> '0' <= s[i] <= '9'
    ensures AreDigits(10, s) && ValueIn(10, s) == ParseDigits(s)
  {
    if s != "" {
      DecimalValue(s[..|s| - 1]);
    }
  }

  // ---------------------------------------------------------------------------------------
  // The precision of a hexadecimal float

  lemma {:induction false} ValueBelowPower(s: string)
    requires AreDigits(16, s)
    ensures ValueIn(16, s) < Pow(2, 4 * |s|)
  {
    if s != "" {
      var t := s[..|s| - 1];
      ValueBelowPower(t);
      var k := 4 * |t|;
      assert Pow(2, k + 4) == 2 * Pow(2, k + 3) == 4 * Pow(2, k + 2) == 8 * Pow(2, k + 1) == 16 * Pow(2, k);
    }
  }

  lemma {:induction false} PowerGrows(k: nat, n: nat)
    requires k <= n
    ensures Pow(2, k) <= Pow(2, n)
  {
    if k < n {
      PowerGrows(k, n - 1);
    }
  }

  /** The mantissa of an accepted hexadecimal float fits the 4·len + 64 bits it is read with, so nothing is rounded. */
  lemma HexMantissaFits(s: string)
    requires HexFloat(s).Some?
    ensures MantissaOf(16, s[2..]).Some? && ValueIn(16, MantissaOf(16, s[2..]).value.digits) < Pow(2, 4 * |s| + 64)
  {
    hide Pow, ValueIn;
    var m := MantissaOf(16, s[2..]).value;
    ValueBelowPower(m.digits);
    PowerGrows(4 * |m.digits|, 4 * |s| + 64);
  }
}
