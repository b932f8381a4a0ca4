/** Text as the service sees it: C strings, ASCII case, and UTF-8 as PostgreSQL checks it.
    A `string` stands for a sequence of bytes, one `char` for each byte. */

module Options {
  datatype Option<+T> = None | Some(value: T)
}

module Text {
  import opened Options

  predicate IsDigit(c: char) {
    '0' <= c <= '9'
  }

  predicate IsUpper(c: char) {
    'A' <= c <= 'Z'
  }

  predicate IsAlnum(c: char) {
    IsDigit(c) || IsUpper(c) || 'a' <= c <= 'z'
  }

  predicate IsAscii(s: string) {
    forall i :: 0 <= i < |s| ==> 0 < s[i] as int < 128
  }

  function ToLower(c: char): char {
    if IsUpper(c) then (c as int + 32) as char else c
  }

  /** ASCII lower case, as `tolower` computes it in the C locale. */
  function Lower(s: string): string {
    seq(|s|, i requires 0 <= i < |s| => ToLower(s[i]))
  }

  lemma LowerFacts(s: string)
    ensures |Lower(s)| == |s|
    ensures Lower(Lower(s)) == Lower(s)
    ensures IsAscii(s) ==> IsAscii(Lower(s))
  {
  }

  /** What `strlen` and every later reader see of a byte sequence that may hold a NUL. */
  function CString(s: string): (r: string)
    ensures '\0' !in r && |r| <= |s|
    ensures '\0' !in s ==> r == s
  {
    if s == "" || s[0] == '\0' then "" else [s[0]] + CString(s[1..])
  }

  /** `strchr`: the index of the first occurrence. */
  function StrChr(s: string, c: char): (r: Option<nat>)
    ensures r.None? ==> c !in s
    ensures r.Some? ==> r.value < |s| && s[r.value] == c && c !in s[..r.value]
  {
    if s == "" then None
    else if s[0] == c then Some(0)
    else
      match StrChr(s[1..], c)
      case None => None
      case Some(i) =>
        assert s[..i + 1] == [s[0]] + s[1..][..i];
        Some(i + 1)
  }

  predicate StartsWith(s: string, prefix: string) {
    |prefix| <= |s| && s[..|prefix|] == prefix
  }

  predicate EndsWith(s: string, suffix: string) {
    |suffix| <= |s| && s[|s| - |suffix|..] == suffix
  }

  /** `snprintf` into a buffer of `size` bytes: the length wanted, and the text that fits. */
  function Snprintf(size: nat, text: string): (nat, string)
    requires 0 < size
  {
    (|text|, if |text| < size then text else text[..size - 1])
  }

  predicate Between(c: char, low: int, high: int) {
    low <= c as int <= high
  }

  predicate IsContinuation(c: char) {
    Between(c, 0x80, 0xBF)
  }

  /** Length of the character that starts the string, or 0 when the first bytes are not one. */
  function LeadLength(s: string): (n: nat)
    requires s != ""
    ensures n <= |s| && n <= 4
  {
    if Between(s[0], 0x01, 0x7F) then 1
    else if |s| >= 2 && Between(s[0], 0xC2, 0xDF) && IsContinuation(s[1]) then 2
    else if |s| >= 3 && Between(s[0], 0xE0, 0xEF) && IsContinuation(s[2])
            && Between(s[1], if s[0] as int == 0xE0 then 0xA0 else 0x80, if s[0] as int == 0xED then 0x9F else 0xBF)
    then 3
    else if |s| >= 4 && Between(s[0], 0xF0, 0xF4) && IsContinuation(s[2]) && IsContinuation(s[3])
            && Between(s[1], if s[0] as int == 0xF0 then 0x90 else 0x80, if s[0] as int == 0xF4 then 0x8F else 0xBF)
    then 4
    else 0
  }

  /** Text that PostgreSQL accepts for a UTF-8 database. */
  predicate IsUtf8(s: string) {
    s == "" || (LeadLength(s) > 0 && IsUtf8(s[LeadLength(s)..]))
  }

  /** `char_length`. */
  function CharLength(s: string): nat
    requires IsUtf8(s)
  {
    if s == "" then 0 else 1 + CharLength(s[LeadLength(s)..])
  }

  /** The byte bounds that the handlers test imply the character bounds of the schema. */
  lemma {:induction false} ByteBoundsBoundCharacters(s: string)
    requires IsUtf8(s)
    ensures CharLength(s) <= |s| <= 4 * CharLength(s)
    ensures s != "" ==> CharLength(s) >= 1
  {
    if s != "" {
      ByteBoundsBoundCharacters(s[LeadLength(s)..]);
    }
  }

  lemma {:induction false} AsciiIsUtf8(s: string)
    requires IsAscii(s)
    ensures IsUtf8(s) && CharLength(s) == |s|
  {
    if s != "" {
      AsciiIsUtf8(s[1..]);
    }
  }

  // ----- UTF-8 as the encoding of code points -----

  /** A Unicode scalar value that PostgreSQL can store: not NUL, no surrogate. */
  predicate IsScalar(c: int) {
    0 < c < 0xD800 || 0xE000 <= c <= 0x10FFFF
  }

  function Unit(n: int): string
    requires 0 <= n < 256
  {
    [n as char]
  }

  /** The encoding of one code point (RFC 3629, section 3). */
  function Encoded(c: int): string
    requires IsScalar(c)
  {
    if c < 0x80 then Unit(c)
    else if c < 0x800 then Unit(0xC0 + c / 64) + Unit(0x80 + c % 64)
    else if c < 0x1_0000 then Unit(0xE0 + c / 4096) + Unit(0x80 + c / 64 % 64) + Unit(0x80 + c % 64)
    else Unit(0xF0 + c / 262144) + Unit(0x80 + c / 4096 % 64) + Unit(0x80 + c / 64 % 64) + Unit(0x80 + c % 64)
  }

  function EncodedAll(points: seq<int>): string
    requires forall c :: c in points ==> IsScalar(c)
  {
    if points == [] then "" else Encoded(points[0]) + EncodedAll(points[1..])
  }

  lemma EncodedLead(c: int, rest: string)
    requires IsScalar(c)
    ensures LeadLength(Encoded(c) + rest) == |Encoded(c)| > 0
  {
    var s := Encoded(c) + rest;
    assert forall k :: 0 <= k < |Encoded(c)| ==> s[k] == Encoded(c)[k];
  }

  /** Continuation bytes are the digits of a code point in base 64. */
  lemma Base64Digits(a: int, b: int, c: int, d: int)
    requires 0 <= a && 0 <= b < 64 && 0 <= c < 64 && 0 <= d < 64
    ensures (64 * a + b) / 64 == a && (64 * a + b) % 64 == b
    ensures (4096 * a + 64 * b + c) / 4096 == a && (4096 * a + 64 * b + c) / 64 % 64 == b
    ensures (4096 * a + 64 * b + c) % 64 == c
    ensures (262144 * a + 4096 * b + 64 * c + d) / 262144 == a && (262144 * a + 4096 * b + 64 * c + d) / 4096 % 64 == b
    ensures (262144 * a + 4096 * b + 64 * c + d) / 64 % 64 == c && (262144 * a + 4096 * b + 64 * c + d) % 64 == d
  {
  }

  /** The code point that the first character of a text encodes. */
  lemma LeadIsEncoded(s: string) returns (c: int)
    requires s != "" && LeadLength(s) > 0
    ensures IsScalar(c) && Encoded(c) == s[..LeadLength(s)]
  {
    var n := LeadLength(s);
    if n == 1 {
      c := s[0] as int;
    } else if n == 2 {
      c := OfTwo(s[0], s[1]);
      assert s[..2] == [s[0], s[1]];
    } else if n == 3 {
      c := OfThree(s[0], s[1], s[2]);
      assert s[..3] == [s[0], s[1], s[2]];
    } else {
      c := OfFour(s[0], s[1], s[2], s[3]);
      assert s[..4] == [s[0], s[1], s[2], s[3]];
    }
  }

  lemma OfTwo(p: char, q: char) returns (c: int)
    requires Between(p, 0xC2, 0xDF) && IsContinuation(q)
    ensures IsScalar(c) && Encoded(c) == [p, q]
  {
    c := 64 * (p as int - 0xC0) + (q as int - 0x80);
    Base64Digits(p as int - 0xC0, q as int - 0x80, 0, 0);
  }

  lemma OfThree(p: char, q: char, r: char) returns (c: int)
    requires Between(p, 0xE0, 0xEF) && IsContinuation(r)
    requires Between(q, if p as int == 0xE0 then 0xA0 else 0x80, if p as int == 0xED then 0x9F else 0xBF)
    ensures IsScalar(c) && Encoded(c) == [p, q, r]
  {
    c := 4096 * (p as int - 0xE0) + 64 * (q as int - 0x80) + (r as int - 0x80);
    Base64Digits(p as int - 0xE0, q as int - 0x80, r as int - 0x80, 0);
  }

  lemma OfFour(p: char, q: char, r: char, t: char) returns (c: int)
    requires Between(p, 0xF0, 0xF4) && IsContinuation(r) && IsContinuation(t)
    requires Between(q, if p as int == 0xF0 then 0x90 else 0x80, if p as int == 0xF4 then 0x8F else 0xBF)
    ensures IsScalar(c) && Encoded(c) == [p, q, r, t]
  {
    c := 262144 * (p as int - 0xF0) + 4096 * (q as int - 0x80) + 64 * (r as int - 0x80) + (t as int - 0x80);
    Base64Digits(p as int - 0xF0, q as int - 0x80, r as int - 0x80, t as int - 0x80);
  }

  /** Every encoding is accepted, and counts as many characters as there are code points. */
  lemma {:induction false} EncodingsAreUtf8(points: seq<int>)
    requires forall c :: c in points ==> IsScalar(c)
    ensures IsUtf8(EncodedAll(points)) && CharLength(EncodedAll(points)) == |points|
  {
    if points != [] {
      EncodingsAreUtf8(points[1..]);
      var s := EncodedAll(points);
      EncodedLead(points[0], EncodedAll(points[1..]));
      assert s[|Encoded(points[0])|..] == EncodedAll(points[1..]);
    }
  }

  /** Nothing else is accepted. */
  lemma {:induction false} Utf8IsEncoded(s: string) returns (points: seq<int>)
    requires IsUtf8(s)
    ensures forall c :: c in points ==> IsScalar(c)
    ensures EncodedAll(points) == s
  {
    if s == "" {
      points := [];
    } else {
      var c := LeadIsEncoded(s);
      var rest := Utf8IsEncoded(s[LeadLength(s)..]);
      points := [c] + rest;
      assert points[1..] == rest;
    }
  }

  // ----- letters -----

  /** The 26 letters change case, everything else stays. */
  lemma LowerMeaning(s: string, i: nat)
    requires i < |s|
    ensures |Lower(s)| == |s|
    ensures Lower(s)[i] == if 'A' <= s[i] <= 'Z' then s[i] - 'A' + 'a' else s[i]
  {
  }
}
