/** src/validation/validation.c: the rules that request text must meet. */
module Validation {
  import opened Options
  import opened Text

  predicate IsKeyChar(c: char) {
    IsAlnum(c) || c == '-' || c == '_' || c == '.' || c == ':'
  }

  /** Keys name portals, contents and favourites. */
  predicate IsKey(s: string, maximum: nat) {
    1 <= |s| <= maximum && forall i :: 0 <= i < |s| ==> IsKeyChar(s[i])
  }

  predicate IsAnonymousIdChar(c: char) {
    IsAlnum(c) || c == '-' || c == '_'
  }

  predicate IsAnonymousId(s: string) {
    8 <= |s| <= 200 && forall i :: 0 <= i < |s| ==> IsAnonymousIdChar(s[i])
  }

  /** Some "@" after the first byte has a "." behind it, and the first byte is not an "@". */
  ghost predicate IsEmail(s: string) {
    && 5 <= |s| <= 254
    && ' ' !in s
    && s[0] != '@'
    && exists i, j :: 0 < i < j < |s| && s[i] == '@' && s[j] == '.'
  }

  const EVENT_TYPES := {"page_view", "content_view", "component_click", "like", "comment"}

  /** A null pointer is `None`. */
  method Key(value: Option<string>, maximum: nat) returns (ok: bool)
    ensures ok <==> value.Some? && IsKey(value.value, maximum)
  {
    var length := if value.None? then 0 else |value.value|;
    if length == 0 || length > maximum {
      return false;
    }
    var index := 0;
    while index < length
      invariant 0 <= index <= length
      invariant forall i :: 0 <= i < index ==> IsKeyChar(value.value[i])
    {
      var character := value.value[index];
      if !(IsAlnum(character) || character == '-' || character == '_' || character == '.' || character == ':') {
        return false;
      }
      index := index + 1;
    }
    return true;
  }

  method AnonymousId(value: Option<string>) returns (ok: bool)
    ensures ok <==> value.Some? && IsAnonymousId(value.value)
  {
    var length := if value.None? then 0 else |value.value|;
    if length < 8 || length > 200 {
      return false;
    }
    var index := 0;
    while index < length
      invariant 0 <= index <= length
      invariant forall i :: 0 <= i < index ==> IsAnonymousIdChar(value.value[i])
    {
      var character := value.value[index];
      if !(IsAlnum(character) || character == '-' || character == '_') {
        return false;
      }
      index := index + 1;
    }
    return true;
  }

  /** The checks of the C function on the first "@", in its order. */
  predicate Email(email: Option<string>)
    ensures Email(email) <==> email.Some? && IsEmail(email.value)
  {
    if email.None? || |email.value| < 5 || |email.value| > 254 || StrChr(email.value, ' ').Some? then false
    else
      var s := email.value;
      var at := StrChr(s, '@');
      assert at.None? ==> forall i :: 0 <= i < |s| ==> s[i] != '@';
      assert at.Some? ==> forall i :: 0 <= i < at.value ==> s[..at.value][i] != '@';
      assert at.Some? ==> s[at.value + 1..] == s[at.value + 1..];
      assert at.Some? ==> forall j :: at.value < j < |s| ==> s[j] == s[at.value + 1..][j - at.value - 1];
      at.Some? && at.value != 0 && at.value + 1 < |s| && StrChr(s[at.value + 1..], '.').Some?
  }

  /** A change of letter case makes no difference to the rules for addresses. */
  lemma LowerKeepsEmail(email: string, other: string)
    requires Lower(email) == Lower(other) && IsEmail(email)
    ensures IsEmail(other)
  {
    assert |other| == |Lower(other)| == |email|;
    forall i | 0 <= i < |email| ensures ToLower(email[i]) == ToLower(other[i]) {
      assert Lower(email)[i] == Lower(other)[i];
    }
    forall i | 0 <= i < |other| ensures other[i] != ' ' {
      assert email[i] in email;
    }
    var i, j :| 0 < i < j < |email| && email[i] == '@' && email[j] == '.';
    assert other[i] == '@' && other[j] == '.';
  }

  predicate EventType(eventType: Option<string>) {
    eventType.Some? &&
    (eventType.value == "page_view" || eventType.value == "content_view" || eventType.value == "component_click"
     || eventType.value == "like" || eventType.value == "comment")
  }

  /** Copies into a caller's buffer; a buffer without room for the final NUL is left alone. */
  method LowercaseCopy(target: array<char>, source: string) returns (ok: bool)
    requires '\0' !in source
    modifies target
    ensures ok <==> |source| < target.Length
    ensures ok ==> target[..|source|] == Lower(source) && target[|source|] == '\0'
    ensures ok ==> CString(target[..]) == Lower(source)
    ensures !ok ==> target[..] == old(target[..])
  {
    var length := |source|;
    if target.Length <= length {
      return false;
    }
    var index := 0;
    while index < length
      invariant 0 <= index <= length
      invariant forall i :: 0 <= i < index ==> target[i] == ToLower(source[i])
    {
      target[index] := ToLower(source[index]);
      index := index + 1;
    }
    target[length] := '\0';
    assert target[..length] == Lower(source);
    assert target[..] == Lower(source) + target[length..];
    CStringStopsAtNul(Lower(source), target[length..]);
    return true;
  }

  lemma {:induction false} CStringStopsAtNul(s: string, rest: string)
    requires '\0' !in s && rest != "" && rest[0] == '\0'
    ensures CString(s + rest) == s
  {
    if s == "" {
      assert s + rest == rest;
    } else {
      CStringStopsAtNul(s[1..], rest);
      assert (s + rest)[1..] == s[1..] + rest;
    }
  }

  /** Validated keys and identifiers always pass the encoding check and the length CHECKs. */
  lemma KeysAreAscii(s: string, maximum: nat)
    requires IsKey(s, maximum) || IsAnonymousId(s)
    ensures IsUtf8(s) && CharLength(s) == |s| && '\0' !in s
  {
    AsciiIsUtf8(s);
  }

  lemma EventTypesAreListed(s: string)
    ensures EventType(Some(s)) <==> s in EVENT_TYPES
    ensures EventType(Some(s)) ==> IsAscii(s)
  {
  }

  // ----- the rules, free of their helpers -----

  /** Keys: ASCII letters, digits and "-", "_", ".", ":". Anonymous ids: 8 to 200 bytes, no "." or ":". */
  lemma KeyRule(s: string, maximum: nat)
    ensures IsKey(s, maximum) <==>
              && 1 <= |s| <= maximum
              && forall c :: c in s ==>
                   'a' <= c <= 'z' || 'A' <= c <= 'Z' || '0' <= c <= '9' || c in {'-', '_', '.', ':'}
    ensures IsAnonymousId(s) <==>
              && 8 <= |s| <= 200
              && forall c :: c in s ==> 'a' <= c <= 'z' || 'A' <= c <= 'Z' || '0' <= c <= '9' || c in {'-', '_'}
  {
    assert forall i :: 0 <= i < |s| ==> s[i] in s;
  }

  /** An address: no blank, an "@" that is not its first byte, and a "." somewhere behind that "@". */
  lemma EmailRule(s: string)
    ensures Email(Some(s)) <==>
              && 5 <= |s| <= 254 && ' ' !in s
              && exists i, j :: 0 <= i < j < |s| && s[i] == '@' && s[j] == '.' && s[0] != '@'
  {
    if i, j :| 0 <= i < j < |s| && s[i] == '@' && s[j] == '.' && s[0] != '@' {
      assert 0 < i < j < |s| && s[i] == '@' && s[j] == '.';
    }
  }
}
