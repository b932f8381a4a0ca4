/** src/config/config.c: settings read from the environment once, at start. */
module Config {
  import opened Options
  import opened Text
  import opened Numbers

  /** The values that the handlers read. */
  datatype Settings = Settings(port: nat, tokenTtlHours: nat, confirmationTtlHours: nat, exposeToken: bool) {
    predicate InRange() {
      1 <= port <= 65535 && 1 <= tokenTtlHours <= 2160 && 1 <= confirmationTtlHours <= 720
    }
  }

  type Environment = map<string, string>

  function GetEnv(environment: Environment, name: string): Option<string> {
    if name in environment then Some(environment[name]) else None
  }

  /** What a numeral counts for in an unsigned long: minus wraps around. */
  function Unsigned(sign: string, digits: string): int
    requires AllDigits(digits)
  {
    var n := DigitsValue(digits);
    if sign == "-" && 0 < n <= ULONG_MAX then ULONG_MAX + 1 - n else n
  }

  /** A value is taken exactly when it is a numeral of an unsigned long within the bounds. */
  ghost predicate Taken(value: Option<string>, minimum: nat, maximum: nat, v: nat) {
    value.Some? && minimum <= v <= maximum &&
    exists spaces, sign, digits ::
      Denotes(value.value, spaces, sign, digits) && DigitsValue(digits) <= ULONG_MAX && v == Unsigned(sign, digits)
  }

  lemma NumeralConverts(s: string, spaces: string, sign: string, digits: string)
    requires Denotes(s, spaces, sign, digits)
    ensures DigitsValue(digits) <= ULONG_MAX ==> StrToUL(s) == Conversion(Unsigned(sign, digits), |s|, false)
    ensures DigitsValue(digits) > ULONG_MAX ==> StrToUL(s).erange
    ensures s != ""
  {
    ScanDenoted(s, spaces, sign, digits);
    hide Scan, DigitsValue;
  }

  lemma ConvertedIsNumeral(s: string)
    requires StrToUL(s).consumed == |s| && s != ""
    ensures exists spaces, sign, digits :: Denotes(s, spaces, sign, digits)
  {
    hide Scan, Denotes;
    ScanWhole(s);
  }

  /** A numeral has one value, so at most one number is taken from a text. */
  lemma TakenUnique(value: Option<string>, minimum: nat, maximum: nat, v: nat, w: nat)
    requires Taken(value, minimum, maximum, v) && Taken(value, minimum, maximum, w)
    ensures v == w
  {
    var a, b, c :| Denotes(value.value, a, b, c) && DigitsValue(c) <= ULONG_MAX && v == Unsigned(b, c);
    var d, e, f :| Denotes(value.value, d, e, f) && DigitsValue(f) <= ULONG_MAX && w == Unsigned(e, f);
    hide StrToUL, DigitsValue, Denotes, Unsigned, AllDigits;
    NumeralConverts(value.value, a, b, c);
    NumeralConverts(value.value, d, e, f);
  }

  /** The setting that a value and its fallback determine. */
  ghost predicate Chosen(value: Option<string>, fallback: nat, minimum: nat, maximum: nat, v: nat) {
    if exists n :: Taken(value, minimum, maximum, n) then forall n :: Taken(value, minimum, maximum, n) <==> n == v
    else v == fallback
  }

  method ParseInteger(value: Option<string>, fallback: nat, minimum: nat, maximum: nat) returns (v: nat)
    requires minimum <= fallback <= maximum <= 0xFFFF_FFFF
    ensures minimum <= v <= maximum
    ensures Chosen(value, fallback, minimum, maximum, v)
  {
    if value.None? || value.value == "" {
      return fallback;
    }
    hide StrToUL, DigitsValue, Denotes, Unsigned, AllDigits;
    var s := value.value;
    var parsed := StrToUL(s);
    if parsed.erange || parsed.consumed == 0 || parsed.consumed != |s| || parsed.value < minimum
       || parsed.value > maximum {
      forall n | Taken(value, minimum, maximum, n) ensures false {
        var spaces, sign, digits :| Denotes(s, spaces, sign, digits) && DigitsValue(digits) <= ULONG_MAX
          && n == Unsigned(sign, digits);
        NumeralConverts(s, spaces, sign, digits);
      }
      return fallback;
    }
    ConvertedIsNumeral(s);
    var spaces, sign, digits :| Denotes(s, spaces, sign, digits);
    NumeralConverts(s, spaces, sign, digits);
    v := parsed.value % 0x1_0000_0000;
    assert Taken(value, minimum, maximum, v);
    forall n | Taken(value, minimum, maximum, n) ensures n == v {
      TakenUnique(value, minimum, maximum, n, v);
    }
  }

  /** The wrapped negative -(2^64 - 1) counts as 1 and is accepted. */
  lemma WrappedNegativeIsTaken(digits: string, minimum: nat, maximum: nat)
    requires digits != "" && AllDigits(digits) && 0 < DigitsValue(digits) <= ULONG_MAX
    ensures Taken(Some("-" + digits), minimum, maximum, ULONG_MAX + 1 - DigitsValue(digits)) <==>
            minimum <= ULONG_MAX + 1 - DigitsValue(digits) <= maximum
  {
    var v := ULONG_MAX + 1 - DigitsValue(digits);
    assert Denotes("-" + digits, "", "-", digits);
    assert v == Unsigned("-", digits);
  }

  /** A numeral without a minus counts as what it says. */
  lemma PlainNumeralIsTaken(digits: string, minimum: nat, maximum: nat)
    requires digits != "" && AllDigits(digits) && DigitsValue(digits) <= ULONG_MAX
    ensures Taken(Some(digits), minimum, maximum, DigitsValue(digits)) <==> minimum <= DigitsValue(digits) <= maximum
  {
    assert Denotes(digits, "", "", digits);
    assert DigitsValue(digits) == Unsigned("", digits);
  }

  method EqualsIgnoreCase(left: string, right: string) returns (equal: bool)
    ensures equal <==> Lower(left) == Lower(right)
  {
    var i := 0;
    while i < |left| && i < |right|
      invariant 0 <= i <= |left| && i <= |right|
      invariant forall k :: 0 <= k < i ==> ToLower(left[k]) == ToLower(right[k])
    {
      if ToLower(left[i]) != ToLower(right[i]) {
        assert Lower(left)[i] != Lower(right)[i];
        return false;
      }
      i := i + 1;
    }
    assert |Lower(left)| == |left| && |Lower(right)| == |right|;
    return i == |left| && i == |right|;
  }

  method ParseBoolean(value: Option<string>, fallback: bool) returns (b: bool)
    ensures b <==> if value.None? || value.value == "" then fallback
                   else value.value == "1" || Lower(value.value) in {"true", "yes"}
  {
    if value.None? || value.value == "" {
      return fallback;
    }
    var isTrue := EqualsIgnoreCase(value.value, "true");
    var isYes := EqualsIgnoreCase(value.value, "yes");
    assert Lower("true") == "true" && Lower("yes") == "yes";
    return value.value == "1" || isTrue || isYes;
  }

  class PortalConfig {
    var databaseUrl: string
    var port: nat
    var tokenTtlHours: nat
    var confirmationTtlHours: nat
    var exposeConfirmationToken: bool

    constructor (databaseUrl: string)
      ensures this.databaseUrl == databaseUrl
    {
      this.databaseUrl := databaseUrl;
      port, tokenTtlHours, confirmationTtlHours, exposeConfirmationToken := 0, 0, 0, false;
    }

    function Values(): Settings
      reads this
    {
      Settings(port, tokenTtlHours, confirmationTtlHours, exposeConfirmationToken)
    }
  }

  /** For every environment the four settings are what their texts say, or else their fallbacks,
      and lie in their declared ranges; storing the port in 16 bits loses nothing. */
  method CreateFromEnvironment(environment: Environment) returns (config: PortalConfig?)
    ensures config == null <==> GetEnv(environment, "DATABASE_URL") in {None, Some("")}
    ensures config != null ==>
              && fresh(config)
              && Some(config.databaseUrl) == GetEnv(environment, "DATABASE_URL")
              && config.Values().InRange()
              && Chosen(GetEnv(environment, "PORT"), 8080, 1, 65535, config.port)
              && Chosen(GetEnv(environment, "TOKEN_TTL_HOURS"), 168, 1, 2160, config.tokenTtlHours)
              && Chosen(GetEnv(environment, "CONFIRMATION_TTL_HOURS"), 24, 1, 720, config.confirmationTtlHours)
              && (config.exposeConfirmationToken <==>
                    match GetEnv(environment, "EXPOSE_CONFIRMATION_TOKEN")
                    case None => false
                    case Some(text) => text == "1" || Lower(text) in {"true", "yes"})
  {
    hide Chosen;
    var databaseUrl := GetEnv(environment, "DATABASE_URL");
    if databaseUrl.None? || databaseUrl.value == "" {
      return null;
    }
    config := new PortalConfig(databaseUrl.value);
    var port := ParseInteger(GetEnv(environment, "PORT"), 8080, 1, 65535);
    config.port := port % 0x1_0000;
    config.tokenTtlHours := ParseInteger(GetEnv(environment, "TOKEN_TTL_HOURS"), 168, 1, 2160);
    config.confirmationTtlHours := ParseInteger(GetEnv(environment, "CONFIRMATION_TTL_HOURS"), 24, 1, 720);
    config.exposeConfirmationToken := ParseBoolean(GetEnv(environment, "EXPOSE_CONFIRMATION_TOKEN"), false);
  }
}
