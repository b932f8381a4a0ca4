/** UUID values, their canonical text and the `::uuid` conversion of PostgreSQL. */
module Uuids {
  import opened Options
  import opened Text

  predicate IsHexDigit(c: char) {
    '0' <= c <= '9' || 'a' <= c <= 'f'
  }

  predicate AllHex(s: string) {
    forall k :: 0 <= k < |s| ==> IsHexDigit(s[k])
  }

  /** 128 bits as 32 hexadecimal digits. */
  type Uuid = u: string | |u| == 32 && AllHex(u) witness seq(32, _ => '0')

  const TEXT_LENGTH := 36

  /** The digit that a character of either case stands for. */
  function HexDigit(c: char): (d: Option<char>)
    ensures d.Some? ==> IsHexDigit(d.value) && 0 < c as int < 128
  {
    if IsHexDigit(c) then Some(c)
    else if 'A' <= c <= 'F' then Some((c as int + 32) as char)
    else None
  }

  /** Canonical text has a hyphen behind bytes 3, 5, 7 and 9. */
  function Hyphen(i: nat): string {
    if i == 3 || i == 5 || i == 7 || i == 9 then "-" else ""
  }

  /** The text of byte `i` and those after it. */
  function PrintFrom(digits: string, i: nat): string
    requires i <= 16 && |digits| == 2 * (16 - i)
    decreases 16 - i
  {
    if i == 16 then "" else digits[..2] + Hyphen(i) + PrintFrom(digits[2..], i + 1)
  }

  /** `id::text` */
  function Print(u: Uuid): string {
    PrintFrom(u, 0)
  }

  /** Two hexadecimal digits for each byte, with an optional hyphen after every second byte;
      `tail` is what must remain at the end. */
  function ParseFrom(text: string, i: nat, tail: string): (r: Option<string>)
    requires i <= 16
    ensures r.Some? ==> |r.value| == 2 * (16 - i) && AllHex(r.value)
    decreases 16 - i
  {
    if i == 16 then if text == tail then Some("") else None
    else if |text| < 2 || HexDigit(text[0]).None? || HexDigit(text[1]).None? then None
    else
      var skip := if |text| > 2 && text[2] == '-' && i % 2 == 1 && i < 15 then 3 else 2;
      match ParseFrom(text[skip..], i + 1, tail)
      case None => None
      case Some(rest) => Some([HexDigit(text[0]).value, HexDigit(text[1]).value] + rest)
  }

  /** `text::uuid`, which fails on text that is not a UUID. */
  function Parse(text: string): Option<Uuid> {
    var r := if text != "" && text[0] == '{' then ParseFrom(text[1..], 0, "}") else ParseFrom(text, 0, "");
    match r
    case None => None
    case Some(u) => Some(u)
  }

  lemma {:induction false} PrintedLength(digits: string, i: nat)
    requires i <= 16 && |digits| == 2 * (16 - i)
    ensures |PrintFrom(digits, i)| == 2 * (16 - i) +
            (if i <= 3 then 4 else if i <= 5 then 3 else if i <= 7 then 2 else if i <= 9 then 1 else 0)
    decreases 16 - i
  {
    if i < 16 {
      PrintedLength(digits[2..], i + 1);
    }
  }

  /** One step of the conversion, over the text of one byte. */
  lemma ParsePair(pair: string, rest: string, i: nat)
    requires i < 16 && |pair| == 2 && AllHex(pair)
    requires rest == "" || rest[0] != '-'
    ensures ParseFrom(pair + Hyphen(i) + rest, i, "")
         == match ParseFrom(rest, i + 1, "") case None => None case Some(digits) => Some(pair + digits)
  {
    var text := pair + Hyphen(i) + rest;
    assert text[0] == pair[0] && text[1] == pair[1];
    assert text[2 + |Hyphen(i)|..] == rest;
    assert pair == [HexDigit(text[0]).value, HexDigit(text[1]).value];
  }

  lemma {:induction false} ParsePrintedFrom(digits: string, i: nat)
    requires i <= 16 && |digits| == 2 * (16 - i) && AllHex(digits)
    ensures ParseFrom(PrintFrom(digits, i), i, "") == Some(digits)
    ensures PrintFrom(digits, i) == "" || PrintFrom(digits, i)[0] != '-'
    decreases 16 - i
  {
    if i < 16 {
      ParsePrintedFrom(digits[2..], i + 1);
      ParsePair(digits[..2], PrintFrom(digits[2..], i + 1), i);
      assert digits == digits[..2] + digits[2..];
    }
  }

  lemma {:induction false} ParsedFromIsAscii(text: string, i: nat, tail: string)
    requires i <= 16 && ParseFrom(text, i, tail).Some? && IsAscii(tail)
    ensures IsAscii(text)
    decreases 16 - i
  {
    if i < 16 {
      var skip := if |text| > 2 && text[2] == '-' && i % 2 == 1 && i < 15 then 3 else 2;
      ParsedFromIsAscii(text[skip..], i + 1, tail);
      assert forall k :: skip <= k < |text| ==> text[k] == text[skip..][k - skip];
    }
  }

  /** The conversion inverts the canonical text, so printed identifiers keep their identity. */
  lemma ParsePrinted(u: Uuid)
    ensures Parse(Print(u)) == Some(u)
    ensures |Print(u)| == TEXT_LENGTH
    ensures IsAscii(Print(u))
  {
    PrintedLength(u, 0);
    ParsePrintedFrom(u, 0);
    ParsedFromIsAscii(Print(u), 0, "");
    assert Print(u)[0] == u[0];
  }

  lemma PrintInjective(u: Uuid, v: Uuid)
    requires Print(u) == Print(v)
    ensures u == v
  {
    ParsePrinted(u);
    ParsePrinted(v);
  }

  /** Only ASCII text converts, so a token text never fails the encoding check first. */
  lemma ParsedIsAscii(text: string)
    requires Parse(text).Some?
    ensures IsAscii(text)
  {
    if text != "" && text[0] == '{' {
      ParsedFromIsAscii(text[1..], 0, "}");
      assert forall k :: 1 <= k < |text| ==> text[k] == text[1..][k - 1];
    } else {
      ParsedFromIsAscii(text, 0, "");
    }
  }

  function DigitOf(c: char): string {
    if '0' <= c <= '9' || 'a' <= c <= 'f' then [c] else if 'A' <= c <= 'F' then [c - 'A' + 'a'] else ""
  }

  /** The hexadecimal digits of a text, in lower case. */
  function DigitsOf(text: string): string {
    if text == "" then "" else DigitOf(text[0]) + DigitsOf(text[1..])
  }

  lemma {:induction false} DigitsOfSplit(a: string, b: string)
    ensures DigitsOf(a + b) == DigitsOf(a) + DigitsOf(b)
  {
    hide DigitOf;
    var all := a + b;
    if a == "" {
      assert all == b;
    } else {
      DigitsOfSplit(a[1..], b);
      assert all != "" && all[0] == a[0] && all[1..] == a[1..] + b;
      Associative(DigitOf(a[0]), DigitsOf(a[1..]), DigitsOf(b));
    }
  }

  lemma Associative(a: string, b: string, c: string)
    ensures a + (b + c) == a + b + c
  {
  }

  lemma PairDigits(c: char, d: char)
    requires HexDigit(c).Some? && HexDigit(d).Some?
    ensures DigitsOf([c, d]) == [HexDigit(c).value, HexDigit(d).value]
    ensures DigitsOf([c, d, '-']) == [HexDigit(c).value, HexDigit(d).value]
  {
    assert [c, d] == [c] + [d] && [c, d, '-'] == [c] + ([d] + ['-']);
    DigitsOfSplit([c], [d]);
    DigitsOfSplit([d], ['-']);
    DigitsOfSplit([c], [d] + ['-']);
  }

  lemma {:induction false} ParsedFromKeepsDigits(text: string, i: nat, tail: string)
    requires i <= 16 && ParseFrom(text, i, tail).Some? && DigitsOf(tail) == ""
    ensures ParseFrom(text, i, tail).value == DigitsOf(text)
    decreases 16 - i
  {
    if i < 16 {
      var skip := if |text| > 2 && text[2] == '-' && i % 2 == 1 && i < 15 then 3 else 2;
      ParsedFromKeepsDigits(text[skip..], i + 1, tail);
      PairDigits(text[0], text[1]);
      assert text[..skip] == if skip == 3 then [text[0], text[1], '-'] else [text[0], text[1]];
      DigitsOfSplit(text[..skip], text[skip..]);
      assert text[..skip] + text[skip..] == text;
    }
  }

  /** Whatever the letter case and the hyphens, a text converts to the identifier of its own digits. */
  lemma ParseKeepsDigits(text: string)
    requires Parse(text).Some?
    ensures Parse(text).value == DigitsOf(text)
  {
    if text != "" && text[0] == '{' {
      assert DigitsOf("}") == DigitsOf(""[..]);
      ParsedFromKeepsDigits(text[1..], 0, "}");
    } else {
      ParsedFromKeepsDigits(text, 0, "");
    }
  }
}
