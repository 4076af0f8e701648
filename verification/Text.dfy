/** The few Go text helpers the modelled code leans on: trimming, ASCII case folding, cutting
    at a separator, and decimal numbers. */
module Text {

  datatype Option<+T> = None | Some(value: T)

  /** A call that succeeds with a value or reports an error; the message is not modelled. */
  datatype Result<+T> = Ok(value: T) | Error

  // ---------------------------------------------------------------- trimming

  /** unicode.IsSpace */
  predicate IsSpace(c: char) {
    || '\t' <= c <= '\r' || c == ' ' || c == '\U{85}' || c == '\U{a0}' || c == '\U{1680}'
    || '\U{2000}' <= c <= '\U{200a}' || c == '\U{2028}' || c == '\U{2029}' || c == '\U{202f}'
    || c == '\U{205f}' || c == '\U{3000}'
  }

  /** Blanks are the ASCII ones and the Unicode ones; letters and digits are none. */
  lemma SpacesAre(c: char)
    ensures c in [' ', '\t', '\n', '\U{0b}', '\U{0c}', '\r', '\U{85}', '\U{a0}', '\U{3000}'] ==> IsSpace(c)
    ensures '!' <= c <= '~' ==> !IsSpace(c)
  {
  }

  predicate Trimmed(s: string) {
    s == [] || (!IsSpace(s[0]) && !IsSpace(s[|s| - 1]))
  }

  function TrimLeft(s: string): (r: string)
    ensures r == [] || !IsSpace(r[0])
    ensures |r| <= |s| && r == s[|s| - |r|..]
  {
    if s != [] && IsSpace(s[0]) then TrimLeft(s[1..]) else s
  }

  function TrimRight(s: string): (r: string)
    ensures r == [] || !IsSpace(r[|r| - 1])
    ensures |r| <= |s| && r == s[..|r|]
  {
    if s != [] && IsSpace(s[|s| - 1]) then TrimRight(s[..|s| - 1]) else s
  }

  /** strings.TrimSpace */
  function TrimSpace(s: string): (r: string)
    ensures Trimmed(r)
    ensures Trimmed(s) <==> r == s
    ensures |r| <= |s|
  {
    TrimRight(TrimLeft(s))
  }

  lemma TrimmedStays(s: string)
    requires Trimmed(s)
    ensures TrimSpace(s) == s
  {
  }

  // ---------------------------------------------------------------- case folding

  function LowerChar(c: char): char {
    if 'A' <= c <= 'Z' then c - 'A' + 'a' else c
  }

  function Lower(s: string): (r: string)
    ensures |r| == |s| && forall i :: 0 <= i < |s| ==> r[i] == LowerChar(s[i])
  {
    seq(|s|, i requires 0 <= i < |s| => LowerChar(s[i]))
  }

  /** Trimming and case folding as library calls: two texts are equal under EqualFold when they
      fold to the same text. */
  datatype Strings = Strings(trim: string -> string, fold: string -> string)

  /** What is relied on about them. */
  ghost predicate Lawful(lib: Strings) {
    lib.trim("") == "" && forall s :: lib.trim(lib.trim(s)) == lib.trim(s)
  }

  /** The concrete trimming above, with any folding, is such a library. */
  lemma TrimSpaceLawful(lib: Strings)
    requires forall s :: lib.trim(s) == TrimSpace(s)
    ensures Lawful(lib)
  {
    forall s: string
      ensures lib.trim(lib.trim(s)) == lib.trim(s)
    {
      assert TrimSpace(TrimSpace(s)) == TrimSpace(s);
    }
  }

  // ---------------------------------------------------------------- searching

  predicate HasPrefix(s: string, p: string) {
    p <= s
  }

  /** Index of the first `c`, or the length when there is none. */
  function IndexOf(s: string, c: char): (k: nat)
    ensures k <= |s|
    ensures k < |s| ==> s[k] == c
    ensures forall i :: 0 <= i < k ==> s[i] != c
  {
    if s == [] || s[0] == c then 0 else 1 + IndexOf(s[1..], c)
  }

  lemma IndexOfAt(a: string, c: char, b: string)
    requires c !in a
    ensures IndexOf(a + [c] + b, c) == |a|
  {
    var s := a + [c] + b;
    assert s[|a|] == c;
    assert forall i :: 0 <= i < |a| ==> s[i] in a;
  }

  // ---------------------------------------------------------------- decimal numbers

  predicate IsDigit(c: char) {
    '0' <= c <= '9'
  }

  predicate AllDigits(s: string) {
    forall c :: c in s ==> IsDigit(c)
  }

  function DigitValue(c: char): (d: nat)
    requires IsDigit(c)
    ensures d < 10
  {
    (c - '0') as nat
  }

  function Digit(d: nat): (c: char)
    requires d < 10
    ensures IsDigit(c) && DigitValue(c) == d
  {
    '0' + d as char
  }

  /** strconv.FormatInt(n, 10) for n >= 0. */
  function Decimal(n: nat): (s: string)
    ensures s != [] && AllDigits(s)
  {
    if n < 10 then [Digit(n)] else Decimal(n / 10) + [Digit(n % 10)]
  }

  /** The number a run of decimal digits writes. */
  function Value(s: string): nat
    requires AllDigits(s)
  {
    if s == [] then 0 else 10 * Value(s[..|s| - 1]) + DigitValue(s[|s| - 1])
  }

  /** strconv.Atoi; a magnitude past the machine width, which Go refuses, is not cut off here. */
  function Atoi(s: string): Option<int> {
    var signed := s != "" && (s[0] == '+' || s[0] == '-');
    var digits := if signed then s[1..] else s;
    if digits == "" || !AllDigits(digits) then None
    else if s[0] == '-' then Some(-(Value(digits) as int))
    else Some(Value(digits))
  }

  lemma {:induction false} DecimalValue(n: nat)
    ensures Value(Decimal(n)) == n
  {
    var s := Decimal(n);
    if n >= 10 {
      assert s[..|s| - 1] == Decimal(n / 10);
      DecimalValue(n / 10);
    } else {
      assert s[..0] == [];
    }
  }

  lemma DigitsTrimmed(s: string)
    requires AllDigits(s)
    ensures Trimmed(s) && TrimSpace(s) == s
  {
    if s != [] {
      assert s[0] in s && s[|s| - 1] in s;
    }
  }
}
