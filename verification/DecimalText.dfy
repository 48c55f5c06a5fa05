/** Decimal numerals: printing coefficients, and reading them back. */
module DecimalText {
  import opened Wrappers
  import opened Decimal

  const MAX_SAFE_INT: int := 0x1F_FFFF_FFFF_FFFF

  /** The integers that canonical JSON may hold: it rejects those beyond 2^53 - 1 either way. */
  type SafeInt = n: int | -MAX_SAFE_INT <= n <= MAX_SAFE_INT

  function DigitChar(d: int): char
    requires 0 <= d < 10
  {
    ('0' as int + d) as char
  }

  /** The last `width` digits of n, padded with zeros. */
  function Digits(n: nat, width: nat): (s: string)
    ensures |s| == width
  {
    if width == 0 then "" else Digits(n / 10, width - 1) + [DigitChar(n % 10)]
  }

  function Natural(n: nat): (s: string)
    ensures |s| > 0 && '0' <= s[0] <= '9'
  {
    if n < 10 then [DigitChar(n)] else Natural(n / 10) + [DigitChar(n % 10)]
  }

  function Tens(places: nat): (p: nat)
    ensures p >= 1
  {
    ScalebGrows(1.0, 0, places);
    Shifted(1, places)
  }

  function DivMod(a: nat, p: nat): (nat, nat)
    requires p >= 1
  {
    (a / p, a % p)
  }

  function Unsigned(a: nat, places: nat): string {
    var (whole, part) := DivMod(a, Tens(places));
    Natural(whole) + (if places == 0 then "" else "." + Digits(part, places))
  }

  /** A coefficient with the decimal point `places` digits from the right. */
  function FixedPoint(c: int, places: nat): string {
    if c < 0 then "-" + Unsigned(-c, places) else Unsigned(c, places)
  }

  /** Reads digits, ignoring the point. */
  function ReadDigits(s: string): int {
    if s == "" then 0
    else
      var k := |s| - 1;
      if s[k] == '.' then ReadDigits(s[..k]) else 10 * ReadDigits(s[..k]) + (s[k] as int - '0' as int)
  }

  function ReadFixed(s: string): int {
    if s != "" && s[0] == '-' then -ReadDigits(s[1..]) else ReadDigits(s)
  }

  lemma {:induction false} ReadDigitsAppended(s: string, n: nat, width: nat)
    requires n < Shifted(1, width)
    ensures ReadDigits(s + Digits(n, width)) == Shifted(ReadDigits(s), width) + n
  {
    if width == 0 {
      assert s + "" == s;
    } else {
      ReadDigitsAppended(s, n / 10, width - 1);
      var t := s + Digits(n, width);
      assert t[..|t| - 1] == s + Digits(n / 10, width - 1);
    }
  }

  lemma {:induction false} ReadNatural(n: nat)
    ensures ReadDigits(Natural(n)) == n
  {
    var t := Natural(n);
    if n >= 10 {
      ReadNatural(n / 10);
      assert t[..|t| - 1] == Natural(n / 10);
    } else {
      assert t[..0] == "" && ReadDigits("") == 0;
    }
  }

  lemma {:induction false} ShiftedProduct(a: int, n: nat)
    ensures Shifted(a, n) == a * Shifted(1, n)
  {
    if n > 0 { ShiftedProduct(a, n - 1); }
  }

  lemma DivideAndScale(a: nat, places: nat)
    ensures a % Tens(places) < Tens(places) == Shifted(1, places)
    ensures Shifted(a / Tens(places), places) + a % Tens(places) == a
  {
    ShiftedProduct(a / Tens(places), places);
  }

  lemma ReadUnsigned(a: nat, places: nat)
    ensures ReadDigits(Unsigned(a, places)) == a
    ensures '0' <= Unsigned(a, places)[0] <= '9'
  {
    hide Scaleb, Natural, Digits, Shifted, Tens;
    DivideAndScale(a, places);
    var p := Tens(places);
    var whole := Natural(a / p);
    ReadNatural(a / p);
    if places > 0 {
      ReadDigitsAppended(whole + ".", a % p, places);
      assert (whole + ".")[..|whole|] == whole;
      assert whole + ("." + Digits(a % p, places)) == whole + "." + Digits(a % p, places);
    } else {
      assert Shifted(a / p, 0) == a / p && a % p == 0 by { UnitShift(a / p); UnitShift(1); }
      assert whole + "" == whole;
    }
  }

  lemma UnitShift(a: int)
    ensures Shifted(a, 0) == a
  {
  }

  /** The text of a decimal determines it: reading it back gives the coefficient, and the point
      stands the given number of digits from the right. */
  lemma FixedPointRoundTrip(c: int, places: nat)
    ensures ReadFixed(FixedPoint(c, places)) == c
    ensures var s := FixedPoint(c, places);
            places > 0 ==> |s| > places + 1 && s[|s| - places - 1] == '.'
  {
    hide ReadDigits, Shifted, Natural, Digits;
    ReadUnsigned(if c < 0 then -c else c, places);
    assert c < 0 ==> FixedPoint(c, places)[1..] == Unsigned(-c, places);
  }

  // ---------------------------------------------------------------- numerals inside other text

  predicate IsDigit(c: char) {
    '0' <= c <= '9'
  }

  predicate StartsWithDigit(s: string) {
    s != "" && IsDigit(s[0])
  }

  lemma {:induction false} NaturalIsDigits(n: nat)
    ensures forall i :: 0 <= i < |Natural(n)| ==> IsDigit(Natural(n)[i])
  {
    if n >= 10 { NaturalIsDigits(n / 10); }
  }

  /** No numeral of more than one digit begins with a zero. */
  lemma {:induction false} NoLeadingZero(n: nat)
    ensures |Natural(n)| > 1 ==> Natural(n)[0] != '0'
    ensures n > 0 ==> Natural(n)[0] != '0'
  {
    if n >= 10 { NoLeadingZero(n / 10); }
  }

  /** How many digits a text begins with. */
  function LeadingDigits(t: string): (k: nat)
    ensures k <= |t|
  {
    if StartsWithDigit(t) then 1 + LeadingDigits(t[1..]) else 0
  }

  /** Reads a numeral that has no needless zeros off the front of a text. */
  function ReadNumeral(t: string): (r: Option<(int, string)>)
    ensures r.Some? ==> |r.value.1| < |t|
  {
    var k := LeadingDigits(t);
    if k == 0 || (k > 1 && t[0] == '0') then None else Some((ReadDigits(t[..k]), t[k..]))
  }

  lemma {:induction false} LeadingDigitsAre(s: string, r: string)
    requires forall i :: 0 <= i < |s| ==> IsDigit(s[i])
    requires !StartsWithDigit(r)
    ensures LeadingDigits(s + r) == |s|
  {
    if s == "" {
      assert s + r == r;
    } else {
      LeadingDigitsAre(s[1..], r);
      assert (s + r)[1..] == s[1..] + r;
    }
  }

  /** A numeral ends where the digits end, so it can be read off the front of a text. */
  lemma NumeralIsRead(n: nat, r: string)
    requires !StartsWithDigit(r)
    ensures ReadNumeral(Natural(n) + r) == Some((n, r))
  {
    hide Natural, ReadDigits, LeadingDigits;
    NaturalIsDigits(n);
    LeadingDigitsAre(Natural(n), r);
    NoLeadingZero(n);
    ReadNatural(n);
    var s := Natural(n);
    assert (s + r)[..|s|] == s && (s + r)[|s|..] == r && (s + r)[0] == s[0];
  }
}
