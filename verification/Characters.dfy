/** White space, digits and decimal numerals, as both text readers of the program treat them.
    Text is a sequence of bytes, written as characters. */
module Characters {
  predicate IsSpace(c: char) { c == ' ' || c == '\t' || c == '\n' || c == '\r' }
  predicate IsDigit(c: char) { '0' <= c <= '9' }

  predicate AllSpace(s: string) { forall i :: 0 <= i < |s| ==> IsSpace(s[i]) }
  predicate AllDigits(s: string) { forall i :: 0 <= i < |s| ==> IsDigit(s[i]) }

  function Skip(s: string): (r: string)
    ensures |r| <= |s|
    ensures r == [] || !IsSpace(r[0])
  {
    if s == [] || !IsSpace(s[0]) then s else Skip(s[1..])
  }

  function Digit(d: nat): (c: char)
    requires d < 10
    ensures IsDigit(c) && c as int - '0' as int == d
  {
    (d + '0' as int) as char
  }

  function Decimal(n: nat): (s: string)
    ensures s != [] && AllDigits(s)
    ensures n > 0 ==> s[0] != '0'
  {
    if n < 10 then [Digit(n)] else Decimal(n / 10) + [Digit(n % 10)]
  }

  function DecimalValue(s: string): nat
    requires AllDigits(s)
  {
    if s == [] then 0 else 10 * DecimalValue(s[..|s| - 1]) + (s[|s| - 1] as int - '0' as int)
  }

  lemma {:induction false} DecimalRoundTrip(n: nat)
    ensures DecimalValue(Decimal(n)) == n
  {
    if n >= 10 {
      DecimalRoundTrip(n / 10);
      assert Decimal(n)[..|Decimal(n)| - 1] == Decimal(n / 10);
    } else {
      assert [Digit(n)][..0] == [];
    }
  }

  // ---------- The same by table ----------

  predicate IsBlank(c: char) { c as int in {0x20, 0x09, 0x0A, 0x0D} }

  lemma {:induction false} BlankIsSpace(c: char)
    ensures IsSpace(c) <==> IsBlank(c)
  {}

  const DIGITS: map<char, int> :=
    map['0' := 0, '1' := 1, '2' := 2, '3' := 3, '4' := 4, '5' := 5, '6' := 6, '7' := 7, '8' := 8, '9' := 9]

  predicate AreDigits(d: string) { forall i :: 0 <= i < |d| ==> d[i] in DIGITS }

  /** The number that decimal digits write. */
  function Written(d: string): int
    requires AreDigits(d)
  {
    if d == [] then 0 else Written(d[..|d| - 1]) * 10 + DIGITS[d[|d| - 1]]
  }

  lemma {:induction false} DigitsAreDigits(d: string)
    ensures AreDigits(d) <==> AllDigits(d)
    ensures AllDigits(d) ==> Written(d) == DecimalValue(d)
  {
    forall i | 0 <= i < |d| ensures d[i] in DIGITS <==> IsDigit(d[i]) { OneDigit(d[i]); }
    if d != [] && AllDigits(d) {
      DigitsAreDigits(d[..|d| - 1]);
      OneDigit(d[|d| - 1]);
    }
  }

  lemma {:induction false} OneDigit(c: char)
    ensures c in DIGITS <==> IsDigit(c)
    ensures IsDigit(c) ==> DIGITS[c] == c as int - '0' as int
  {
    if IsDigit(c) { assert c as int in {0x30, 0x31, 0x32, 0x33, 0x34, 0x35, 0x36, 0x37, 0x38, 0x39}; }
  }
}
