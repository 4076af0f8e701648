/** Byte sizes as text: "200M", "1 GiB", "1048576". */
module Sizes {
  import opened Text

  const TWO_63: int := 0x8000_0000_0000_0000
  const TWO_64: int := 0x1_0000_0000_0000_0000

  /** A product kept in an int64. */
  function Wrap64(x: int): (r: int)
    ensures -TWO_63 <= r < TWO_63
    ensures -TWO_63 <= x < TWO_63 <==> r == x
  {
    (x + TWO_63) % TWO_64 - TWO_63
  }

  /** Units in ascending order: bytes, K, M, G, T. */
  function Unit(k: nat): (u: nat)
    requires k < 5
    ensures u > 0
  {
    [1, 0x400, 0x10_0000, 0x4000_0000, 0x100_0000_0000][k]
  }

  function Suffix(k: nat): string
    requires k < 5
  {
    ["", "K", "M", "G", "T"][k]
  }

  /** What ParseSize makes of a text. Numbers with a decimal point go through floating point
      and are set apart. */
  datatype Size = Bytes(n: int) | Rejected | Fractional

  predicate IsNumberChar(c: char) {
    c == '.' || c == '-' || c == '+' || IsDigit(c)
  }

  function NumberLength(t: string): (i: nat)
    ensures i <= |t|
    ensures forall j :: 0 <= j < i ==> IsNumberChar(t[j])
    ensures i < |t| ==> !IsNumberChar(t[i])
  {
    if t != [] && IsNumberChar(t[0]) then 1 + NumberLength(t[1..]) else 0
  }

  function TrimSuffix(s: string, c: char): string {
    if s != [] && s[|s| - 1] == c then s[..|s| - 1] else s
  }

  /** Index of the unit a lower-case text names once "b" or "ib" is dropped. */
  function UnitOf(text: string): Option<nat> {
    var unit := TrimSuffix(TrimSuffix(text, 'b'), 'i');
    if unit == [] then Some(0)
    else if |unit| > 1 then None
    else if unit[0] == 'k' then Some(1)
    else if unit[0] == 'm' then Some(2)
    else if unit[0] == 'g' then Some(3)
    else if unit[0] == 't' then Some(4)
    else None
  }

  function UnitIndex(text: string): Option<nat> {
    UnitOf(TrimSpace(Lower(text)))
  }

  /** strconv.ParseInt(s, 10, 64) */
  function ParseInt64(s: string): Result<int> {
    var signed := s != [] && (s[0] == '-' || s[0] == '+');
    var digits := if signed then s[1..] else s;
    if digits == [] || !AllDigits(digits) then Error
    else
      var n: int := if signed && s[0] == '-' then -(Value(digits) as int) else Value(digits);
      if -TWO_63 <= n < TWO_63 then Ok(n) else Error
  }

  /** The answer for a product, which is held in an int64 and must be positive there. */
  function Kept(product: int): (r: Size)
    ensures r == Bytes(product) <==> 0 < product < TWO_63
  {
    var bytes := Wrap64(product);
    if bytes <= 0 then Rejected else Bytes(bytes)
  }

  /** The size a number text and a unit text make together. */
  function Combined(number: string, unit: string): Size {
    match UnitIndex(unit)
    case None => Rejected
    case Some(k) =>
      if k >= 5 then Rejected
      else if '.' in number then Fractional
      else match ParseInt64(number)
        case Error => Rejected
        case Ok(n) => Kept(n * Unit(k))
  }

  /** The size of a trimmed text whose number part has length i. */
  function SizeAt(t: string, i: nat): Size
    requires i <= |t|
  {
    var number := TrimSpace(t[..i]);
    if t == [] || number == [] then Rejected else Combined(number, t[i..])
  }

  function SizeOf(s: string): Size {
    var t := TrimSpace(s);
    SizeAt(t, NumberLength(t))
  }

  method ParseSize(s: string) returns (r: Size)
    ensures r == SizeOf(s)
  {
    var t := TrimSpace(s);
    var i := 0;
    while i < |t| && IsNumberChar(t[i])
      invariant 0 <= i <= NumberLength(t)
    {
      i := i + 1;
    }
    assert i == NumberLength(t);
    r := SizeAt(t, i);
  }

  /** Index of the largest unit that divides b. */
  function LargestUnit(b: int): (k: nat)
    ensures k < 5 && b % Unit(k) == 0
    ensures forall j :: k < j < 5 ==> b % Unit(j) != 0
  {
    if b % Unit(4) == 0 then 4
    else if b % Unit(3) == 0 then 3
    else if b % Unit(2) == 0 then 2
    else if b % Unit(1) == 0 then 1
    else 0
  }

  function FormatSize(b: int): string {
    if b <= 0 then "0" else Decimal(b / Unit(LargestUnit(b))) + Suffix(LargestUnit(b))
  }

  // ---------------------------------------------------------------- round trip

  lemma NumberLengthOf(digits: string, rest: string)
    requires AllDigits(digits) && (rest == [] || !IsNumberChar(rest[0]))
    ensures NumberLength(digits + rest) == |digits|
  {
    var t := digits + rest;
    assert forall j :: 0 <= j < |digits| ==> t[j] in digits;
    assert rest != [] ==> t[|digits|] == rest[0];
  }

  lemma LetterNames(k: nat, letter: char)
    requires 0 < k < 5 && letter == "bkmgt"[k]
    ensures UnitOf([letter]) == Some(k)
  {
  }

  lemma SuffixNames(text: string, k: nat)
    requires k < 5 && text == Suffix(k)
    ensures UnitIndex(text) == Some(k)
  {
    if k == 0 {
      assert Lower(text) == [];
      TrimmedStays(Lower(text));
    } else {
      var letter := LowerChar(text[0]);
      LetterNames(k, letter);
      assert Lower(text) == [letter];
      TrimmedStays(Lower(text));
    }
  }

  lemma ReadsDigits(n: nat)
    requires n < TWO_63
    ensures ParseInt64(Decimal(n)) == Ok(n) && '.' !in Decimal(n)
  {
    DecimalValue(n);
    assert Decimal(n)[0] in Decimal(n);
  }

  lemma SizedTextTrimmed(digits: string, k: nat)
    requires k < 5 && digits != [] && AllDigits(digits)
    ensures Trimmed(digits + Suffix(k))
  {
    var t := digits + Suffix(k);
    assert t[0] in digits;
    assert k == 0 ==> t == digits && t[|t| - 1] in digits;
    assert k > 0 ==> t[|t| - 1] == Suffix(k)[0];
  }

  lemma ReadsCombined(digits: string, rest: string, n: int, k: nat)
    requires AllDigits(digits) && ParseInt64(digits) == Ok(n) && k < 5 && UnitIndex(rest) == Some(k)
    ensures Combined(digits, rest) == Kept(n * Unit(k))
  {
    assert '.' !in digits;
  }

  lemma ReadsParts(digits: string, rest: string)
    requires digits != [] && AllDigits(digits)
    ensures SizeAt(digits + rest, |digits|) == Combined(digits, rest)
  {
    var t := digits + rest;
    DigitsTrimmed(digits);
    assert t[..|digits|] == digits && t[|digits|..] == rest;
  }

  /** A whole number written with a unit is read as the product kept in 64 bits: exactly the
      number of bytes it says when that product is positive and fits, and otherwise either
      rejected or misread. */
  lemma ReadsProduct(n: nat, k: nat)
    requires k < 5 && n < TWO_63
    ensures SizeOf(Decimal(n) + Suffix(k)) == Kept(n * Unit(k))
    ensures SizeOf(Decimal(n) + Suffix(k)) == Bytes(n * Unit(k)) <==> 0 < n * Unit(k) < TWO_63
  {
    var digits, suffix := Decimal(n), Suffix(k);
    NumberLengthOf(digits, suffix);
    SizedTextTrimmed(digits, k);
    SuffixNames(suffix, k);
    ReadsDigits(n);
    ReadsParts(digits, suffix);
    ReadsCombined(digits, suffix, n, k);
  }

  /** Every positive int64 survives being formatted and parsed back. */
  lemma FormatThenParse(b: int)
    requires 0 < b < TWO_63
    ensures SizeOf(FormatSize(b)) == Bytes(b)
  {
    var k := LargestUnit(b);
    var n := b / Unit(k);
    assert n * Unit(k) == b;
    assert n < TWO_63;
    ReadsProduct(n, k);
  }

  /** Numbers that overflow are not all refused: 2^64 bytes more than m units, written in that
      unit, is accepted and read as m units ("16777217T" as one terabyte). */
  lemma OverflowMisread(n: nat, m: nat, k: nat)
    requires 0 < k < 5 && n * Unit(k) == TWO_64 + m * Unit(k) && 0 < m * Unit(k) < TWO_63
    ensures SizeOf(Decimal(n) + Suffix(k)) == Bytes(m * Unit(k))
  {
    assert n < TWO_63;
    assert Wrap64(n * Unit(k)) == m * Unit(k);
    ReadsProduct(n, k);
  }

  // ---------------------------------------------------------------- units

  /** Each unit is 1024 of the one before, the first being the byte. */
  lemma UnitsAre(k: nat)
    requires k < 5
    ensures Unit(k) == if k == 0 then 1 else 1024 * Unit(k - 1)
  {
  }

  lemma TailsDropped(t: string, k: nat, letter: char, tail: string)
    requires UnitOf([letter]) == Some(k) && k > 0 && t == [letter] + tail
    requires tail == [] || tail == ['b'] || tail == ['i', 'b']
    ensures UnitOf(t) == Some(k)
  {
    assert TrimSuffix([letter], 'b') == [letter] && TrimSuffix([letter], 'i') == [letter];
    if tail == ['b'] {
      assert t[..|t| - 1] == [letter];
    } else if tail == ['i', 'b'] {
      assert t[..|t| - 1] == [letter, 'i'] && [letter, 'i'][..1] == [letter];
    }
  }

  /** A unit may be written with its letter in either case, alone or followed by B or iB in either
      case. */
  lemma UnitSpellings(text: string, t: string, k: nat, letter: char, tail: string)
    requires 0 < k < 5 && letter == "bkmgt"[k] && t == Lower(text) == [letter] + tail
    requires tail == [] || tail == ['b'] || tail == ['i', 'b']
    ensures UnitIndex(text) == Some(k)
  {
    LetterNames(k, letter);
    TailsDropped(t, k, letter, tail);
    assert t[|t| - 1] == if tail == [] then letter else 'b';
    TrimmedStays(t);
  }

  // ---------------------------------------------------------------- blanks and signs

  /** Blanks around a size do not matter. */
  lemma OuterBlanks(s: string)
    ensures SizeOf(s) == SizeOf(TrimSpace(s))
  {
    TrimmedStays(TrimSpace(s));
  }

  /** Nor does one before the unit. */
  lemma InnerBlank(text: string)
    ensures UnitIndex([' '] + text) == UnitIndex(text)
  {
    var t := Lower([' '] + text);
    assert t[0] == ' ' && t[1..] == Lower(text);
    assert TrimLeft(t) == TrimLeft(Lower(text));
  }

  lemma ReadsSigned(n: nat, sign: char)
    requires n < TWO_63 && (sign == '+' || sign == '-')
    ensures ParseInt64([sign] + Decimal(n)) == Ok(if sign == '-' then -(n as int) else n)
    ensures '.' !in [sign] + Decimal(n)
  {
    var s := [sign] + Decimal(n);
    DecimalValue(n);
    assert s[1..] == Decimal(n);
    forall c | c in s
      ensures c != '.'
    {
      assert c == sign || c in Decimal(n);
    }
  }

  /** A sign is read: a plus changes nothing, and a minus makes the product negative, which is then
      refused unless it wraps to a positive one. */
  lemma ReadsSign(n: nat, k: nat, sign: char)
    requires k < 5 && n < TWO_63 && (sign == '+' || sign == '-')
    ensures Combined([sign] + Decimal(n), Suffix(k)) == Kept((if sign == '-' then -(n as int) else n) * Unit(k))
  {
    ReadsSigned(n, sign);
    SuffixNames(Suffix(k), k);
  }

  /** Nothing and less print as zero. */
  lemma ZeroPrints(b: int)
    requires b <= 0
    ensures FormatSize(b) == "0"
  {
  }
}
