/** Integers crossing text: `strtol` and `strtoul` (section 7.22.1.4 of ISO/IEC 9899:2018, 64-bit `long`),
    `%u` and `%ld`, the query ranges of the analytics route and the bounds of the configuration. */
module Numbers {
  import opened Options
  import opened Text

  const LONG_MIN := -0x8000_0000_0000_0000
  const LONG_MAX := 0x7FFF_FFFF_FFFF_FFFF
  const ULONG_MAX := 0xFFFF_FFFF_FFFF_FFFF

  predicate IsSpace(c: char) {
    c == ' ' || 9 <= c as int <= 13
  }

  predicate AllSpaces(s: string) {
    forall i :: 0 <= i < |s| ==> IsSpace(s[i])
  }

  predicate AllDigits(s: string) {
    forall i :: 0 <= i < |s| ==> IsDigit(s[i])
  }

  function DigitsValue(s: string): nat
    requires AllDigits(s)
  {
    if s == "" then 0 else 10 * DigitsValue(s[..|s| - 1]) + (s[|s| - 1] as int - '0' as int)
  }

  /** `%u` */
  function Decimal(n: nat): (s: string)
    ensures s != "" && AllDigits(s) && DigitsValue(s) == n
  {
    if n < 10 then [(n + '0' as int) as char]
    else
      var front := Decimal(n / 10);
      var s := front + [(n % 10 + '0' as int) as char];
      assert s[..|s| - 1] == front;
      s
  }

  function LeadingSpaces(s: string): (n: nat)
    ensures n <= |s| && AllSpaces(s[..n]) && (n < |s| ==> !IsSpace(s[n]))
  {
    if s == "" || !IsSpace(s[0]) then 0
    else
      var n := LeadingSpaces(s[1..]);
      assert s[..n + 1] == [s[0]] + s[1..][..n];
      n + 1
  }

  function LeadingDigits(s: string): (n: nat)
    ensures n <= |s| && AllDigits(s[..n]) && (n < |s| ==> !IsDigit(s[n]))
  {
    if s == "" || !IsDigit(s[0]) then 0
    else
      var n := LeadingDigits(s[1..]);
      assert s[..n + 1] == [s[0]] + s[1..][..n];
      n + 1
  }

  /** The signed value of a sign and its digits. */
  function Signed(sign: string, digits: string): int
    requires AllDigits(digits)
  {
    if sign == "-" then -(DigitsValue(digits) as int) else DigitsValue(digits)
  }

  /** The longest prefix that is spaces, an optional sign and digits; `consumed` is 0 without digits. */
  datatype Numeral = Numeral(negative: bool, magnitude: nat, consumed: nat) {
    function Value(): int {
      if negative then -(magnitude as int) else magnitude
    }
  }

  function Scan(s: string): (r: Numeral)
    ensures r.consumed <= |s|
  {
    var spaces := LeadingSpaces(s);
    var signed := spaces < |s| && (s[spaces] == '-' || s[spaces] == '+');
    var start := if signed then spaces + 1 else spaces;
    var digits := LeadingDigits(s[start..]);
    if digits == 0 then Numeral(false, 0, 0)
    else Numeral(signed && s[spaces] == '-', DigitsValue(s[start..][..digits]), start + digits)
  }

  /** `consumed` is `end - text`, `erange` says that `errno` was set. */
  datatype Conversion = Conversion(value: int, consumed: nat, erange: bool)

  function StrToL(s: string): Conversion {
    var n := Scan(s);
    var v := n.Value();
    if v < LONG_MIN then Conversion(LONG_MIN, n.consumed, true)
    else if v > LONG_MAX then Conversion(LONG_MAX, n.consumed, true)
    else Conversion(v, n.consumed, false)
  }

  /** A minus sign negates the magnitude in the unsigned type. */
  function StrToUL(s: string): Conversion {
    var n := Scan(s);
    if n.magnitude > ULONG_MAX then Conversion(ULONG_MAX, n.consumed, true)
    else
      var v := if n.negative && n.magnitude > 0 then ULONG_MAX + 1 - n.magnitude else n.magnitude;
      Conversion(v, n.consumed, false)
  }

  // ----- what the conversions mean on whole strings -----

  /** `s` is a numeral for the signed magnitude: spaces, an optional sign, at least one digit, nothing else. */
  predicate Denotes(s: string, spaces: string, sign: string, digits: string) {
    && s == spaces + sign + digits
    && AllSpaces(spaces)
    && sign in {"", "-", "+"}
    && digits != "" && AllDigits(digits)
  }

  lemma {:induction false} LeadingSpacesOf(spaces: string, rest: string)
    requires AllSpaces(spaces) && (rest == "" || !IsSpace(rest[0]))
    ensures LeadingSpaces(spaces + rest) == |spaces|
  {
    if spaces == "" {
      assert spaces + rest == rest;
    } else {
      LeadingSpacesOf(spaces[1..], rest);
      assert (spaces + rest)[1..] == spaces[1..] + rest;
    }
  }

  lemma SignOrDigitIsNoSpace(sign: string, digits: string)
    requires sign in {"", "-", "+"} && digits != "" && AllDigits(digits)
    ensures !IsSpace((sign + digits)[0])
  {
  }

  /** The three parts of a numeral sit one after the other. */
  lemma DenotedParts(s: string, spaces: string, sign: string, digits: string)
    requires Denotes(s, spaces, sign, digits)
    ensures LeadingSpaces(s) == |spaces| < |s|
    ensures sign == "" ==> IsDigit(s[|spaces|])
    ensures sign != "" ==> s[|spaces|] == sign[0]
    ensures s[|spaces| + |sign|..] == digits && LeadingDigits(digits) == |digits|
  {
    hide IsSpace, IsDigit, DigitsValue, LeadingSpaces, LeadingDigits, AllSpaces;
    SignOrDigitIsNoSpace(sign, digits);
    AllAreLeading(digits);
    LeadingSpacesOf(spaces, sign + digits);
    ThreeParts(spaces, sign, digits);
  }

  lemma ThreeParts(a: string, b: string, c: string)
    requires c != ""
    ensures a + b + c == a + (b + c) && (a + b + c)[|a| + |b|..] == c
    ensures (a + b + c)[|a|] == (b + c)[0] == if b == "" then c[0] else b[0]
  {
  }

  lemma AllAreLeading(digits: string)
    requires AllDigits(digits)
    ensures LeadingDigits(digits) == |digits|
  {
  }

  lemma ScanDenoted(s: string, spaces: string, sign: string, digits: string)
    requires Denotes(s, spaces, sign, digits)
    ensures Scan(s) == Numeral(sign == "-", DigitsValue(digits), |s|)
  {
    hide DigitsValue, LeadingSpaces, LeadingDigits, AllSpaces;
    DenotedParts(s, spaces, sign, digits);
    assert digits[..|digits|] == digits;
    assert |s| == |spaces| + |sign| + |digits|;
  }

  /** Where a wholly consumed text is cut into its parts. */
  lemma WholeScanParts(s: string) returns (spaces: nat, start: nat)
    requires Scan(s).consumed == |s| && s != ""
    ensures spaces <= start < |s| && AllSpaces(s[..spaces])
    ensures start == spaces || (start == spaces + 1 && s[spaces] in {'-', '+'})
    ensures AllDigits(s[start..])
  {
    hide DigitsValue, AllDigits, AllSpaces, LeadingSpaces, LeadingDigits;
    spaces := LeadingSpaces(s);
    start := if spaces < |s| && (s[spaces] == '-' || s[spaces] == '+') then spaces + 1 else spaces;
    var digits := LeadingDigits(s[start..]);
    assert digits == |s| - start;
    assert s[start..][..digits] == s[start..];
  }

  lemma WholeScanDenotes(s: string)
    requires Scan(s).consumed == |s| && s != ""
    ensures exists spaces, sign, digits :: Denotes(s, spaces, sign, digits)
  {
    hide Scan, AllDigits, AllSpaces;
    var i, j := WholeScanParts(s);
    var sign := s[i..j];
    assert sign == if i == j then "" else [s[i]];
    assert s == s[..i] + sign + s[j..];
    assert Denotes(s, s[..i], sign, s[j..]);
  }

  /** `strtol` and `strtoul` consume a whole string exactly when it is a numeral. */
  lemma ScanWhole(s: string)
    ensures Scan(s).consumed == |s| && s != "" <==> exists spaces, sign, digits :: Denotes(s, spaces, sign, digits)
  {
    if Scan(s).consumed == |s| && s != "" {
      WholeScanDenotes(s);
    }
    if spaces, sign, digits :| Denotes(s, spaces, sign, digits) {
      ScanDenoted(s, spaces, sign, digits);
    }
    hide Scan;
  }

  lemma {:induction false} DecimalWidth(n: nat, width: nat)
    requires n < Power10(width) && width > 0
    ensures |Decimal(n)| <= width
  {
    if n >= 10 {
      DecimalWidth(n / 10, width - 1);
    }
  }

  function Power10(k: nat): nat {
    if k == 0 then 1 else 10 * Power10(k - 1)
  }

  lemma TenDigits(n: nat)
    requires n <= 0xFFFF_FFFF
    ensures |Decimal(n)| <= 10
  {
    assert Power10(2) == 100;
    assert Power10(4) == 100 * Power10(2);
    assert Power10(6) == 100 * Power10(4);
    assert Power10(8) == 100 * Power10(6);
    assert Power10(10) == 100 * Power10(8);
    DecimalWidth(n, 10);
  }

  /** Every 32-bit value prints inside the 12-byte buffers, so the length tests after
      `snprintf` never fail. */
  lemma DecimalFits(n: nat)
    requires n <= 0xFFFF_FFFF
    ensures |Decimal(n)| < 12
    ensures Snprintf(12, Decimal(n)) == (|Decimal(n)|, Decimal(n))
    ensures IsUtf8(Decimal(n))
  {
    TenDigits(n);
    AsciiIsUtf8(Decimal(n));
  }

  lemma ScanDecimal(n: nat)
    ensures Scan(Decimal(n)) == Numeral(false, n, |Decimal(n)|)
  {
    hide Decimal, Scan, DigitsValue;
    assert Denotes(Decimal(n), "", "", Decimal(n));
    ScanDenoted(Decimal(n), "", "", Decimal(n));
  }

  /** What was printed reads back as itself. */
  lemma DecimalRoundTrip(n: nat)
    requires n <= LONG_MAX
    ensures StrToL(Decimal(n)) == Conversion(n, |Decimal(n)|, false)
    ensures StrToUL(Decimal(n)) == Conversion(n, |Decimal(n)|, false)
    ensures n <= 0x7FFF_FFFF ==> ParseInt4(Decimal(n)) == Some(n)
  {
    hide Decimal, Scan;
    ScanDecimal(n);
    assert Decimal(n)[|Decimal(n)|..] == "";
  }

  /** `text::int` */
  function ParseInt4(text: string): Option<int> {
    var n := Scan(text);
    var v := n.Value();
    if n.consumed == 0 || !AllSpaces(text[n.consumed..]) || v < -0x8000_0000 || v > 0x7FFF_FFFF then None else Some(v)
  }

  // ----- analytics.c -----

  /** The value of an optional query argument, or `None` when it is refused. */
  function RangeValue(text: Option<string>, fallback: int, minimum: int, maximum: int): (r: Option<int>)
    ensures r.Some? && minimum <= fallback <= maximum ==> minimum <= r.value <= maximum
  {
    match text
    case None => Some(fallback)
    case Some(s) =>
      var c := StrToL(s);
      if c.erange || c.consumed == 0 || c.consumed != |s| || c.value < minimum || c.value > maximum then None
      else Some(c.value)
  }

  method ParseRange(text: Option<string>, fallback: int, minimum: int, maximum: int, current: int)
    returns (ok: bool, output: int)
    ensures ok <==> RangeValue(text, fallback, minimum, maximum).Some?
    ensures output == if ok then RangeValue(text, fallback, minimum, maximum).value else current
  {
    output := current;
    var value := fallback;
    if text.Some? {
      var c := StrToL(text.value);
      value := c.value;
      if c.erange || c.consumed == 0 || c.consumed != |text.value| || value < minimum || value > maximum {
        return false, output;
      }
    }
    output := value;
    ok := true;
  }

  lemma DenotedOnce(s: string, a: string, b: string, c: string, d: string, e: string, f: string)
    requires Denotes(s, a, b, c) && Denotes(s, d, e, f)
    ensures Signed(b, c) == Signed(e, f)
  {
    hide Scan, DigitsValue, Denotes;
    ScanDenoted(s, a, b, c);
    ScanDenoted(s, d, e, f);
  }

  /** `strtol` on a numeral: its value when it is a `long`, and an overflow otherwise. */
  lemma StrToLDenoted(s: string, spaces: string, sign: string, digits: string)
    requires Denotes(s, spaces, sign, digits)
    ensures StrToL(s).consumed == |s| > 0
    ensures !StrToL(s).erange <==> LONG_MIN <= Signed(sign, digits) <= LONG_MAX
    ensures !StrToL(s).erange ==> StrToL(s).value == Signed(sign, digits)
  {
    ScanDenoted(s, spaces, sign, digits);
    hide Scan, DigitsValue;
  }

  /** An argument is accepted exactly when it is a numeral whose value lies in the range, and
      the value returned is the one it denotes. */
  lemma RangeAcceptsNumerals(s: string, fallback: int, minimum: int, maximum: int, v: int)
    requires LONG_MIN <= minimum && maximum <= LONG_MAX
    ensures RangeValue(Some(s), fallback, minimum, maximum) == Some(v) <==>
            minimum <= v <= maximum &&
            exists spaces, sign, digits :: Denotes(s, spaces, sign, digits) && v == Signed(sign, digits)
  {
    ScanWhole(s);
    assert StrToL(s).consumed == Scan(s).consumed;
    if spaces, sign, digits :| Denotes(s, spaces, sign, digits) {
      StrToLDenoted(s, spaces, sign, digits);
      forall a, b, c | Denotes(s, a, b, c) ensures Signed(b, c) == Signed(sign, digits) {
        DenotedOnce(s, spaces, sign, digits, a, b, c);
      }
      hide Scan, Signed, StrToL, Denotes;
    }
  }

  // ----- digits and blanks, spelled out -----

  /** Position by position, a text of digits counts in tens. */
  lemma DigitsAreDecimal(s: string, d: char)
    requires AllDigits(s) && '0' <= d <= '9'
    ensures AllDigits(s + [d]) && DigitsValue(s + [d]) == 10 * DigitsValue(s) + (d - '0') as int
    ensures DigitsValue("") == 0
  {
    var t := s + [d];
    assert t[..|t| - 1] == s && t[|t| - 1] == d;
  }

  /** The form and the value of a numeral; blanks are those of the C locale. */
  lemma NumeralForm(s: string, spaces: string, sign: string, digits: string)
    ensures Denotes(s, spaces, sign, digits) <==>
              && s == spaces + sign + digits
              && (forall c :: c in spaces ==> c in {' ', '\t', '\n', 11 as char, 12 as char, '\r'})
              && (sign == "" || sign == "+" || sign == "-")
              && digits != "" && (forall c :: c in digits ==> '0' <= c <= '9')
    ensures Denotes(s, spaces, sign, digits) ==>
              Signed(sign, digits) == (if sign == "-" then -1 else 1) * DigitsValue(digits)
  {
    assert forall i :: 0 <= i < |spaces| ==> spaces[i] in spaces;
    assert forall i :: 0 <= i < |digits| ==> digits[i] in digits;
  }
}
