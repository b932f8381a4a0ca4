/** The JSON half of src/http/request.c. The tokenizer itself is a parameter. */
module Json {
  import opened Options
  import opened Text

  /** `text` is the serialisation of an object; numbers, arrays, booleans and null are `Scalar`. */
  datatype Value = Str(bytes: string) | Object(fields: map<string, Value>, text: string) | Scalar

  /** What `json_tokener_parse_ex` reports: its error state, its value and where it stopped. */
  datatype Parsed = Parsed(success: bool, value: Option<Value>, end: nat)

  type Tokener = string -> Parsed

  predicate IsBlank(c: char) {
    c == ' ' || c == '\t' || c == '\r' || c == '\n'
  }

  /** A body counts when it is one JSON object with nothing but blanks behind it. */
  function BodyObject(tokener: Tokener, body: string): Option<Value> {
    var p := tokener(body);
    if body != "" && p.success && p.value.Some? && p.value.value.Object? && p.end <= |body|
       && forall i :: p.end <= i < |body| ==> IsBlank(body[i])
    then p.value else None
  }

  /** `portal_http_request_parse_json` */
  method ParseBody(tokener: Tokener, body: string) returns (json: Option<Value>)
    ensures json == BodyObject(tokener, body)
  {
    if |body| == 0 {
      return None;
    }
    var p := tokener(body);
    var parseEnd := p.end;
    while parseEnd < |body| && IsBlank(body[parseEnd])
      invariant p.end <= parseEnd
      invariant parseEnd <= |body| || parseEnd == p.end
      invariant forall i :: p.end <= i < parseEnd && i < |body| ==> IsBlank(body[i])
    {
      parseEnd := parseEnd + 1;
    }
    if !p.success || parseEnd != |body| || p.value.None? || !p.value.value.Object? {
      return None;
    }
    return p.value;
  }

  function Field(json: Option<Value>, key: string): Option<Value> {
    if json.Some? && json.value.Object? && key in json.value.fields then Some(json.value.fields[key]) else None
  }

  /** `portal_http_json_string`; text behind an embedded NUL is not seen. */
  function GetString(json: Option<Value>, key: string, minimum: nat, maximum: nat): (r: Option<string>)
    ensures r.Some? ==> minimum <= |r.value| <= maximum && '\0' !in r.value
  {
    match Field(json, key)
    case Some(Str(bytes)) =>
      var text := CString(bytes);
      if minimum <= |text| <= maximum then Some(text) else None
    case _ => None
  }

  /** A string is returned exactly when the field is a string whose text up to its first NUL, or
      to its end, is that string and has a length within the bounds. */
  lemma StringIsRead(json: Option<Value>, key: string, minimum: nat, maximum: nat, s: string)
    ensures GetString(json, key, minimum, maximum) == Some(s) <==>
            && json.Some? && json.value.Object? && key in json.value.fields && json.value.fields[key].Str?
            && var bytes := json.value.fields[key].bytes;
            && s <= bytes && '\0' !in s && (s == bytes || bytes[|s|] == '\0')
            && minimum <= |s| <= maximum
  {
    match Field(json, key)
    case Some(Str(bytes)) => CStringIsPrefix(bytes, s);
    case _ =>
  }

  lemma {:induction false} CStringIsPrefix(bytes: string, s: string)
    ensures s == CString(bytes) <==> s <= bytes && '\0' !in s && (s == bytes || bytes[|s|] == '\0')
  {
    if bytes != "" && bytes[0] != '\0' {
      if s != "" {
        CStringIsPrefix(bytes[1..], s[1..]);
        assert s == [s[0]] + s[1..];
        assert s <= bytes <==> s[0] == bytes[0] && s[1..] <= bytes[1..];
      }
    } else if s != "" && s <= bytes {
      assert s[0] == bytes[0];
    }
  }

  /** `portal_http_json_optional_string` */
  function GetOptionalString(json: Option<Value>, key: string, maximum: nat): (r: Option<string>)
    ensures r.Some? ==> |r.value| <= maximum && '\0' !in r.value
  {
    GetString(json, key, 0, maximum)
  }
}
