/** The routing half of src/http/http.c: methods and paths to routes. */
module Router {
  import opened Options
  import opened Text

  datatype Kind = Section | Tag

  datatype Route =
    | Preflight
    | Health
    | TopContent
    | FavoriteList(kind: Kind)
    | CloseSession
    | FavoriteChange(kind: Kind, put: bool, key: string)
    | Register
    | Confirm
    | Login
    | Activity
    | Like(put: bool, contentId: string)
    | Comment(contentId: string)
    | ContentIdTooLong
    | NotFound

  const SECTIONS := "/me/favorite-sections"
  const TAGS := "/me/favorite-tags"
  const CONTENT := "/content/"
  const CONTENT_ID_BUFFER: nat := 301

  function PathOf(kind: Kind): string {
    if kind.Section? then SECTIONS else TAGS
  }

  function ChangeMethod(put: bool): string {
    if put then "PUT" else "DELETE"
  }

  /** `http_dispatch_without_body`: `None` stands for `*handled == false`. */
  function RecogniseWithoutBody(verb: string, url: string): Option<Route> {
    if verb == "OPTIONS" then Some(Preflight)
    else if verb == "GET" && url == "/health" then Some(Health)
    else if verb == "GET" && url == "/analytics/top-content" then Some(TopContent)
    else if verb == "GET" && url == SECTIONS then Some(FavoriteList(Section))
    else if verb == "GET" && url == TAGS then Some(FavoriteList(Tag))
    else if verb == "DELETE" && url == "/auth/session" then Some(CloseSession)
    else if StartsWith(url, "/me/favorite-sections/") && (verb == "PUT" || verb == "DELETE") then
      Some(FavoriteChange(Section, verb == "PUT", url[22..]))
    else if StartsWith(url, "/me/favorite-tags/") && (verb == "PUT" || verb == "DELETE") then
      Some(FavoriteChange(Tag, verb == "PUT", url[18..]))
    else None
  }

  /** `http_dispatch_content`, on the path behind "/content/". */
  function RecogniseContent(verb: string, path: string): Route {
    if (verb == "PUT" || verb == "DELETE") && |path| > 5 && EndsWith(path, "/like") then
      if |path| - 5 >= CONTENT_ID_BUFFER then ContentIdTooLong else Like(verb == "PUT", path[..|path| - 5])
    else if verb == "POST" && |path| > 9 && EndsWith(path, "/comments") then
      if |path| - 9 >= CONTENT_ID_BUFFER then ContentIdTooLong else Comment(path[..|path| - 9])
    else NotFound
  }

  /** `http_dispatch_json_route` */
  function RecogniseWithBody(verb: string, url: string): Route {
    if verb == "POST" && url == "/auth/register" then Register
    else if verb == "POST" && url == "/auth/confirm" then Confirm
    else if verb == "POST" && url == "/auth/login" then Login
    else if verb == "POST" && url == "/activity" then Activity
    else if StartsWith(url, CONTENT) then RecogniseContent(verb, url[9..])
    else NotFound
  }

  function Recognise(verb: string, url: string): Route {
    match RecogniseWithoutBody(verb, url)
    case Some(r) => r
    case None => RecogniseWithBody(verb, url)
  }

  /** Routes that are served before any body is looked at. */
  predicate IgnoresBody(r: Route) {
    r.Preflight? || r.Health? || r.TopContent? || r.FavoriteList? || r.CloseSession? || r.FavoriteChange?
  }

  /** Exactly these are handled before the body. */
  lemma HandledIffBodyIgnored(verb: string, url: string)
    ensures RecogniseWithoutBody(verb, url).Some? <==> IgnoresBody(Recognise(verb, url))
  {
  }

  /** The copy of the content id into its buffer. */
  method CopyContentId(path: string, suffixLength: nat) returns (contentId: Option<string>)
    requires suffixLength < |path|
    ensures contentId == if |path| - suffixLength >= CONTENT_ID_BUFFER then None
                         else Some(path[..|path| - suffixLength])
  {
    var buffer := new char[CONTENT_ID_BUFFER](_ => '\0');
    var length := |path| - suffixLength;
    if length >= buffer.Length {
      return None;
    }
    forall i | 0 <= i < length {
      buffer[i] := path[i];
    }
    buffer[length] := '\0';
    assert buffer[..length] == path[..length];
    contentId := Some(buffer[..length]);
  }

  // ----- the documented table of endpoints, free of any order of tests -----

  /** Path and method of a route that a client can write down. */
  function Write(r: Route): Option<(string, string)> {
    match r
    case Health => Some(("GET", "/health"))
    case TopContent => Some(("GET", "/analytics/top-content"))
    case FavoriteList(kind) => Some(("GET", PathOf(kind)))
    case CloseSession => Some(("DELETE", "/auth/session"))
    case FavoriteChange(kind, put, key) => Some((ChangeMethod(put), PathOf(kind) + "/" + key))
    case Register => Some(("POST", "/auth/register"))
    case Confirm => Some(("POST", "/auth/confirm"))
    case Login => Some(("POST", "/auth/login"))
    case Activity => Some(("POST", "/activity"))
    case Like(put, id) => Some((ChangeMethod(put), CONTENT + id + "/like"))
    case Comment(id) => Some(("POST", CONTENT + id + "/comments"))
    case Preflight | ContentIdTooLong | NotFound => None
  }

  /** Content ids that a path can carry. */
  predicate Permitted(r: Route) {
    (r.Like? || r.Comment?) ==> 1 <= |r.contentId| < CONTENT_ID_BUFFER
  }

  lemma ConcatPrefix(a: string, b: string)
    ensures StartsWith(a + b, a) && (a + b)[|a|..] == b
  {
  }

  lemma ConcatSuffix(a: string, b: string)
    ensures EndsWith(a + b, b) && (a + b)[..|a|] == a
  {
  }

  lemma PrintRecognisedContent(verb: string, path: string)
    ensures var r := RecogniseContent(verb, path);
            Permitted(r) && (Write(r).Some? ==> Write(r) == Some((verb, CONTENT + path)))
  {
    var r := RecogniseContent(verb, path);
    if r.Like? || r.Comment? {
      var suffix := if r.Like? then "/like" else "/comments";
      assert path == r.contentId + suffix;
      assert CONTENT + path == CONTENT + r.contentId + suffix;
    }
  }

  lemma PrintRecognisedWithoutBody(verb: string, url: string)
    ensures var r := RecogniseWithoutBody(verb, url);
            r.Some? && r.value != Preflight ==> Write(r.value) == Some((verb, url))
  {
    var r := RecogniseWithoutBody(verb, url);
    if r.Some? && r.value.FavoriteChange? {
      var prefix := PathOf(r.value.kind) + "/";
      assert prefix == if r.value.kind.Section? then "/me/favorite-sections/" else "/me/favorite-tags/";
      assert url == prefix + r.value.key;
    }
  }

  /** Printing what was recognised gives back the method and the URL. */
  lemma PrintRecognised(verb: string, url: string)
    ensures var r := Recognise(verb, url);
            Permitted(r) && (Write(r).Some? ==> Write(r) == Some((verb, url)))
  {
    PrintRecognisedWithoutBody(verb, url);
    if RecogniseWithoutBody(verb, url).None? && StartsWith(url, CONTENT) {
      assert url == CONTENT + url[9..];
      PrintRecognisedContent(verb, url[9..]);
    }
  }

  lemma RecognisePrintedChange(kind: Kind, put: bool, key: string)
    ensures Recognise(ChangeMethod(put), PathOf(kind) + "/" + key) == FavoriteChange(kind, put, key)
  {
    var prefix := PathOf(kind) + "/";
    var url := prefix + key;
    assert url == PathOf(kind) + "/" + key;
    assert prefix == if kind.Section? then "/me/favorite-sections/" else "/me/favorite-tags/";
    ConcatPrefix(prefix, key);
    assert url[1] == 'm';
    assert kind.Tag? ==> url[13] == 't';
  }

  lemma RecogniseContentUrl(verb: string, path: string)
    requires verb in {"PUT", "DELETE", "POST"}
    ensures Recognise(verb, CONTENT + path) == RecogniseContent(verb, path)
  {
    var url := CONTENT + path;
    ConcatPrefix(CONTENT, path);
    assert url[1] == 'c';
  }

  lemma RecognisePrintedContent(r: Route)
    requires (r.Like? || r.Comment?) && Permitted(r)
    ensures Recognise(Write(r).value.0, Write(r).value.1) == r
  {
    hide Recognise;
    var suffix := if r.Like? then "/like" else "/comments";
    var path := r.contentId + suffix;
    ConcatSuffix(r.contentId, suffix);
    assert Write(r).value.1 == CONTENT + path;
    RecogniseContentUrl(Write(r).value.0, path);
  }

  /** Recognising a printed route gives back the route, its key or content id included. */
  lemma RecognisePrinted(r: Route)
    requires Write(r).Some? && Permitted(r)
    ensures Recognise(Write(r).value.0, Write(r).value.1) == r
  {
    match r
    case FavoriteChange(kind, put, key) => RecognisePrintedChange(kind, put, key);
    case Like(_, _) => RecognisePrintedContent(r);
    case Comment(_) => RecognisePrintedContent(r);
    case _ =>
  }

  /** No method and URL belong to two routes, so the order of the tests does not matter:
      a request other than OPTIONS is recognised as a route exactly when it is that route's line. */
  lemma RoutesAreDisjoint(verb: string, url: string, r: Route)
    requires Write(r).Some? && Permitted(r) && verb != "OPTIONS"
    ensures Recognise(verb, url) == r <==> Write(r) == Some((verb, url))
  {
    PrintRecognised(verb, url);
    if Write(r) == Some((verb, url)) {
      RecognisePrinted(r);
    }
  }

  lemma OptionsMatchesEveryPath(url: string)
    ensures Recognise("OPTIONS", url) == Preflight
    ensures forall verb :: Recognise(verb, url).Preflight? ==> verb == "OPTIONS"
  {
  }

  lemma IsLine(r: Route, verb: string, url: string)
    requires Write(r) == Some((verb, url)) && Permitted(r)
    ensures Recognise(verb, url) == r
  {
    RecognisePrinted(r);
  }

  /** The endpoints without parameters, literally. */
  lemma FixedEndpoints()
    ensures Recognise("GET", "/health") == Health
    ensures Recognise("GET", "/analytics/top-content") == TopContent
    ensures Recognise("GET", "/me/favorite-sections") == FavoriteList(Section)
    ensures Recognise("GET", "/me/favorite-tags") == FavoriteList(Tag)
    ensures Recognise("POST", "/auth/register") == Register
    ensures Recognise("POST", "/auth/confirm") == Confirm
    ensures Recognise("POST", "/auth/login") == Login
    ensures Recognise("DELETE", "/auth/session") == CloseSession
    ensures Recognise("POST", "/activity") == Activity
  {
    hide Recognise;
    IsLine(Health, "GET", "/health");
    IsLine(TopContent, "GET", "/analytics/top-content");
    IsLine(FavoriteList(Section), "GET", "/me/favorite-sections");
    IsLine(FavoriteList(Tag), "GET", "/me/favorite-tags");
    IsLine(Register, "POST", "/auth/register");
    IsLine(Confirm, "POST", "/auth/confirm");
    IsLine(Login, "POST", "/auth/login");
    IsLine(CloseSession, "DELETE", "/auth/session");
    IsLine(Activity, "POST", "/activity");
  }

  /** The endpoints of favourites and of contents, for every key and every id that fits. */
  lemma ParameterEndpoints(put: bool, key: string, id: string)
    requires 1 <= |id| <= 300
    ensures var verb := if put then "PUT" else "DELETE";
            && Recognise(verb, "/me/favorite-sections" + "/" + key) == FavoriteChange(Section, put, key)
            && Recognise(verb, "/me/favorite-tags" + "/" + key) == FavoriteChange(Tag, put, key)
            && Recognise(verb, "/content/" + id + "/like") == Like(put, id)
    ensures Recognise("POST", "/content/" + id + "/comments") == Comment(id)
  {
    hide Recognise;
    var verb := if put then "PUT" else "DELETE";
    IsLine(FavoriteChange(Section, put, key), verb, "/me/favorite-sections" + "/" + key);
    IsLine(FavoriteChange(Tag, put, key), verb, "/me/favorite-tags" + "/" + key);
    IsLine(Like(put, id), verb, "/content/" + id + "/like");
    IsLine(Comment(id), "POST", "/content/" + id + "/comments");
  }
}
