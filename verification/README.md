# Portal activity API: a verified model

The service answers HTTP requests about accounts, sessions, favourites, activity events, likes, comments and
view counts, and keeps all of them in PostgreSQL. This project models it in Dafny and proves what it promises
over every input and over every run.

## How the model is built

- **Tables** (`Schema.dfy`, `Tables.dfy`) are sequences of rows. Uniqueness, foreign keys, CHECKs and the
  correspondence of users and confirmation tokens are a predicate, `Schema.Valid`, not a property of the
  representation, so that row counts other than one are possible until they are proved impossible.
- **Statements** (`Sql.dfy`) are atomic functions from tables and parameter texts to tables and a result. They
  fail as PostgreSQL does: for text that is not UTF-8, for a text that is no UUID, for a CHECK, for a foreign
  key, for a taken key.
- **The reference** (`Service.dfy`) says on values what a request does: `Step` from its upload to its reply, and
  `Run` for a sequence of requests. The only constraints that can be met there are taken keys and a `lower` that
  disagrees.
- **The handlers** (`Portal.dfy`, `Validation.dfy`, `Numbers.dfy`, `Json.dfy`, `Router.dfy`, `Config.dfy`) are
  methods that go through the steps of the C functions: checks in order, buffers, parameter texts, one
  statement, and a reply chosen from status and row count. `Portal.Server.ServeRequest` is proved to agree with
  `Service.Step` in every state that a run can reach.
- **Uploads** (`RequestBody.dfy`, `Upload.dfy`) are classes with the fields of the C structs; `Upload.Receive` makes
  all calls of one request on them, and `ServeRequest` takes its reply from such a run.
- **Whole runs** (`Sessions.dfy`, `Accounts.dfy`, `Lapses.dfy`, `Likes.dfy`, `Favorites.dfy`, `Methods.dfy`,
  `Honesty.dfy`) relate the tables to the history of requests and replies.
- **What a caller can rely on** (`Answers.dfy`, `Admissions.dfy`, `Contributions.dfy`) is said once more without
  the definitions above: for each endpoint the reply in every state, and the rows that an accepted request leaves,
  in terms of header text, JSON fields, numbers and rows alone.
- **The top-content query** (`TopContent.dfy`, `TopContentEvolution.dfy`) has a declarative meaning, a functional
  form, a scanning loop and a one-pass loop over the partial index, all proved equal.

A `string` stands for bytes. An `Env` supplies `crypt`, `lower` and the collation of PostgreSQL, the tokenizer of
json-c and the acceptance of `jsonb`; `Env.Lawful` states all that is assumed of them. `Schema.LawfulIsPossible`
shows that these assumptions can be met together. A `Moment` supplies the clock and the generated UUIDs of one
request. Generated keys are not assumed to be fresh: a collision is an SQL error, as in the database. The bearer
token is looked up at one instant and the statement of the route runs at another, because they are two queries.

Where code and documentation differ, the model follows the code: a repeated registration key that collides by
chance is also reported as a taken address, an empty content id in an activity is stored as none, and
`strtoul` lets wrapped negative numbers into the configuration.

## Model

| member | source | states |
|---|---|---|
| Sessions.SessionValidityIsHistory | src/http/authentication.c:13-43 | After any run a token authenticates as a user at a time exactly when some login returned it for that user less than its time to live before, and no logout with it was ever accepted |
| Sessions.RunIsFaithful | src/http/routes/auth.c:142-149 | Every session row is explained by a login, every login left its row, and a row is revoked exactly when a logout named its token |
| Sessions.LoginAddsSession | src/http/routes/auth.c:164-190 | A successful login adds one row, for the confirmed user of the address whose hash matches, under an unused token |
| Sessions.LogoutSparesOtherSessions | src/http/routes/auth.c:209-224 | An accepted logout leaves every other token authenticating as before |
| Accounts.AccountLifecycle | src/http/routes/auth.c:100-121 | Every accepted registration keeps one user and one token of its own; the user is confirmed exactly when that token was accepted, at that instant, strictly before expiry |
| Accounts.EveryAccountWasRegistered | src/http/routes/auth.c:26-33 | No account row without an accepted registration that asked for it |
| Accounts.TokensAreAcceptedOnce | src/http/routes/auth.c:101-104 | No confirmation token is accepted twice in any run |
| Accounts.ConfirmationIsPermanent | src/http/routes/auth.c:105-107 | Once set, the confirmation time of a user is the same after any further requests |
| Lapses.LapsedIsNeverConfirmed | src/http/routes/auth.c:100-107 | With a clock that does not run back: once it has passed the expiry of a registration that was not confirmed, its token is never accepted and its user never confirmed, in any longer run |
| Lapses.LapsedNeverSignsIn | src/http/routes/auth.c:142-149 | With such a clock no login with that address is ever accepted, however long the run goes on |
| Lapses.RegisteredAddressIsTaken | src/http/routes/auth.c:35-64 | No run registers an address twice: a complete request for it gets 409, with the other refusals in their order |
| Accounts.SessionsFollowConfirmation | src/http/routes/auth.c:142-149 | With a clock that does not run back, every session belongs to a user confirmed no later than the session was made |
| Accounts.CorrectPasswordSignsIn | src/http/routes/auth.c:130-190 | After confirmation the registered password with the address in any letter case signs in, unless the generated session token is taken |
| Accounts.RunAccountsFaithful | src/http/routes/auth.c:26-33 | Users and tokens are what registrations and confirmations made of them, in every reachable state |
| Effects.OnlyAcceptedRequestsChange | src/http/http.c:114-142 | Each table changes by its own accepted requests alone, and a reply of 400 or above, 413 included, changes nothing |
| Honesty.LoginMisreportsOnlyForDuplicates | src/http/routes/auth.c:172-177 | In arbitrary tables a refused login changes them exactly when two confirmed users match and the new keys are free |
| Honesty.LoginNeverMisreports | src/http/routes/auth.c:168-177 | With the constraints of the schema a login that does not report success leaves the tables alone |
| Honesty.ConfirmMisreportsOnlyForOrphans | src/http/routes/auth.c:115-120 | In arbitrary tables, and for any text, a refused confirmation changes them exactly when the text is a live token that has not one owner |
| Honesty.ConfirmNeverMisreports | src/http/routes/auth.c:115-120 | With users and tokens in correspondence a refused confirmation consumes nothing |
| Honesty.OrdinaryTextRegisters | src/http/routes/auth.c:35-64 | ASCII addresses and UTF-8 texts never meet a database error in registration |
| Honesty.StepFollowsUpload | src/http/http.c:144-176 | However a body is cut, the calls that `Upload.Exchange.AccessHandler` follows make one reply, and the reference is that reply: 413 without effect, or dispatch of the whole body |
| Honesty.PostedViewsAreCounted | src/http/routes/activity.c:70-75 | An accepted view raises the count of its own content by one in every window that has begun by now, and no other count |
| Honesty.OtherRequestsAreNoViews | src/http/routes/analytics.c:46-51 | No request but POST /activity changes any view count |
| Honesty.TopContentReplyIsTop | src/http/routes/analytics.c:53-106 | A 200 reply carries the unique answer to the query for the accepted portal, days and limit |
| Answers.UploadIsJudged | src/http/http.c:114-142 | More than 1,048,576 bytes get 413, a wanted object that is none gets 400, every other request reaches its handler |
| Answers.ObjectIsSeen | src/http/request.c:44-75 | The handler sees an object exactly for POST, PUT and non-empty DELETE bodies that are that object followed by blanks |
| Answers.CallerIsSignedIn | src/http/authentication.c:13-47 | A caller is signed in as a user exactly when the header is "Bearer " and 36 bytes that convert to the token of a session of that confirmed user, neither revoked nor over |
| Answers.ActorIsWhoActs | src/http/routes/activity.c:16-52 | A request acts as an account exactly when that account is signed in, as a visitor exactly when no header was sent and "anonymous_id" is valid, and otherwise gets the refusal of its cause |
| Answers.ProbesAreAnswered | src/http/http.c:54-65 | Health answers 200 or 503 by the connection; preflight, unknown routes and overlong ids have their replies |
| Answers.TopContentIsAnswered | src/http/routes/analytics.c:53-64 | 401 without a session, 400 for a bad portal, days or limit, else the list for the portal and the days asked for, with defaults 7 and 10 |
| Answers.TopContentItems | src/http/routes/analytics.c:46-51 | Every item has the true number of views of the last so many times 24 hours, in order of count and id; whoever is missing ranks behind a full list |
| Admissions.RegisterIsAnswered | src/http/routes/auth.c:35-80 | Which registration gets 201, 400, 409 or 500 |
| Admissions.RegistrationIsStored | src/http/routes/auth.c:26-33 | The user and token rows of an accepted registration; its reply tells the expiry of that token and discloses the token exactly when the settings say so |
| Admissions.ConfirmIsAnswered | src/http/routes/auth.c:109-121 | A token is accepted exactly while its row is unconsumed and unexpired |
| Admissions.ConfirmationTakesEffect | src/http/routes/auth.c:100-107 | It marks that one token and its one user, and nobody else |
| Admissions.ConfirmationInTime | src/http/routes/auth.c:100-121 | After any run, the unused token of a registration is accepted if and only if its hours have not passed, and its user is confirmed at that instant |
| Admissions.LoginIsAnswered | src/http/routes/auth.c:151-199 | Which login gets 200, 400, 401 or 500, and the token and expiry it is told |
| Admissions.SessionIsOpened | src/http/routes/auth.c:142-149 | The session row of a login is the one its reply announces, for the user it matched |
| Admissions.LogoutIsAnswered | src/http/routes/auth.c:201-229 | 401 without a live session, else 204; exactly the session of the header is revoked, now |
| Contributions.ActivityIsAnswered | src/http/routes/activity.c:77-118 | Which event gets 201, 400, 401 or 500 |
| Contributions.ActivityIsRecorded | src/http/routes/activity.c:70-101 | Every column of the event of an accepted activity |
| Contributions.LikeIsAnswered | src/http/routes/activity.c:146-180 | Which like request gets 204, 400 or 401; only a PUT needs a portal |
| Contributions.LikeTakesEffect | src/http/routes/activity.c:136-170 | A first like adds its row and one event, a repeated one nothing; taking it back removes the actor's row on this content and no other |
| Contributions.CommentIsAnswered | src/http/routes/activity.c:211-250 | Which comment gets 201, 400, 401 or 500 |
| Contributions.CommentIsStored | src/http/routes/activity.c:199-226 | The comment row and its event: content of the path, body, author, portal, actor, and the id and time of the reply |
| Contributions.FavoriteIsAnswered | src/http/routes/favorites.c:77-111 | Which change of a favourite gets 204, 400 or 401 |
| Contributions.FavoriteTakesEffect | src/http/routes/favorites.c:85-100 | PUT adds the key to the caller's set of its kind once, DELETE removes it; the other kind and other users keep theirs |
| Contributions.FavoriteListIsAnswered | src/http/routes/favorites.c:14-65 | 401 without a session, else the ascending list of exactly the keys stored for the caller and the kind |
| Contributions.VisitorTakesLikeBack | src/http/http.c:123-131 | From the wire to the table: a DELETE whose JSON body carries only an "anonymous_id" is accepted and removes that visitor's like |
| Schema.ConstraintsHold | db/init.sql:3-34 | The constraints on users, tokens and sessions, one by one |
| Schema.FavoriteConstraintsHold | db/init.sql:36-50 | The constraints on favourites |
| Schema.ContributionConstraintsHold | db/init.sql:54-99 | The constraints on events, likes and comments |
| Invariant.RunIsValid | db/init.sql:3-100 | Every reachable state meets every key, foreign key, uniqueness and CHECK constraint |
| Invariant.StepKeepsValid | db/init.sql:3-100 | Any request keeps all constraints and the correspondence of users and tokens |
| Invariant.RegisterKeeps | db/init.sql:3-22 | Registration keeps them |
| Invariant.ConfirmKeepsAccounts | src/http/routes/auth.c:100-107 | Confirmation keeps users and tokens paired, unique and consumed before expiry |
| Invariant.LikesStayValid | db/init.sql:77-86 | Inserting or deleting a like keeps one row for each content and actor, each the row of exactly one actor |
| Statements.RegisterStatement | src/http/routes/auth.c:26-60 | Validated fields violate no CHECK: the statement fails only for unstorable text, for a `lower` that disagrees, and for taken keys |
| Statements.ConfirmStatement | src/http/routes/auth.c:100-107 | The two-table update touches one token and its one user, or nothing |
| Statements.LoginStatement | src/http/routes/auth.c:142-149 | The statement inserts for the single matching user, or nothing |
| Statements.FavoriteStatement | src/http/routes/favorites.c:86-98 | Validated keys and the caller's id always satisfy CHECK and foreign key |
| Statements.ActivityStatement | src/http/routes/activity.c:70-101 | The insert fails only for unstorable optional texts or data; actor, portal and type always pass |
| Statements.LikeStatement | src/http/routes/activity.c:136-164 | The like statement never fails for validated keys and a real actor |
| Statements.CommentStatement | src/http/routes/activity.c:199-226 | Byte bounds imply the character bounds of the comment CHECK; only unstorable text or a taken id fails |
| Likes.LikeConservation | src/http/routes/activity.c:136-170 | For every content, actor and run: 'like' events are those posted to /activity, one for each effective unlike, and one if the like stands |
| Likes.LikesFollowHistory | src/http/routes/activity.c:126-185 | After any run a content is liked by an actor exactly when that actor's last accepted like request on it was a PUT |
| Likes.LikeRequestsCommute | src/http/routes/activity.c:126-185 | Accepted like requests on different contents or by different actors give the same rows in either order, up to ids and row order |
| Likes.AppliedDecides | src/http/routes/activity.c:136-170 | A like operation decides its own pair and no other |
| Favorites.FavoritesFollowHistory | src/http/routes/favorites.c:67-111 | After any run a key is a favourite exactly when its last accepted change, by that user and of that kind, was a PUT |
| Favorites.FavoriteListIsSortedSet | src/http/routes/favorites.c:14-65 | A list is the strictly ascending listing of exactly those keys |
| Sorting.SortedIsUnique | src/http/routes/favorites.c:19-22 | A set of keys has one such listing |
| Methods.SafeMethodsChangeNothing | src/http/http.c:48-90 | No GET and no OPTIONS request changes any table |
| Methods.PutAndDeleteAreIdempotent | src/http/http.c:48-90 | Repeating a PUT or DELETE later leaves every row, the event log included, as after the first |
| Methods.CallersRunOut | src/http/authentication.c:13-17 | A token that authenticates later authenticated earlier as the same user, in unchanged tables |
| Schema.ActorKeysAreFaithful | src/http/routes/activity.c:26-36 | Actor keys fit the 205-byte buffer untruncated and different actors have different keys |
| Schema.LikesAreUniquePerActor | db/init.sql:77-86 | A like row has exactly one of user and anonymous id, and its key equals an actor's key exactly when it is that actor's row |
| Lookup.OwnerIsSelected | src/http/authentication.c:13-36 | The join returns the one confirmed owner of a live session with the token, or nothing |
| Lookup.RefusalNamesItsCause | src/http/routes/activity.c:16-52 | 401 exactly when a header was sent that names no confirmed owner of a live session; 400 exactly when none was sent and the anonymous id is invalid |
| Portal.Authenticate | src/http/authentication.c:6-48 | The three-way verdict, with id and address copied whole into their buffers |
| Portal.LoadActor | src/http/routes/activity.c:16-38 | The struct holds the actor's texts and its whole key; the overflow branch is never taken |
| Portal.ActorError | src/http/routes/activity.c:40-52 | The header alone recovers the cause that the merged status lost |
| Portal.Server.ServeRequest | src/http/http.c:114-176 | The upload is run through the access handler piece by piece and dispatched from its buffer; the handlers give the reply and the tables of the reference for every request, keep the state reachable and valid, and change nothing when they report an error |
| Portal.Server.RouteRegister | src/http/routes/auth.c:13-83 | The register handler agrees with the reference; its buffer branches are never taken |
| Portal.Server.RouteConfirm | src/http/routes/auth.c:92-128 | The confirm handler agrees with the reference |
| Portal.Server.RouteLogin | src/http/routes/auth.c:130-199 | The login handler agrees with the reference; the token lifetime branch is never taken |
| Portal.Server.RouteLogout | src/http/routes/auth.c:201-229 | The logout handler agrees with the reference |
| Portal.Server.RouteFavoriteChange | src/http/routes/favorites.c:67-111 | The favourite change handler agrees with the reference |
| Portal.Server.RouteActivity | src/http/routes/activity.c:54-124 | The activity handler agrees with the reference |
| Portal.Server.RouteLike | src/http/routes/activity.c:126-185 | The like handler agrees with the reference |
| Portal.Server.RouteComment | src/http/routes/activity.c:187-253 | The comment handler agrees with the reference |
| Portal.Server.RouteTopContent | src/http/routes/analytics.c:28-119 | The analytics handler agrees with the reference |
| Portal.Server.DispatchRequest | src/http/http.c:114-142 | Dispatch order, body parsing and refusals agree with the reference |
| TopContent.CountIsCardinality | src/http/routes/analytics.c:46-50 | A count is the number of log positions with the portal, the content, one of the two kinds of view and a time inside the window |
| TopContent.TopIsTop | src/http/routes/analytics.c:46-51 | The statement's rows have true positive counts, strict order by count and id, the limit, and everyone omitted ranks behind everyone listed |
| TopContent.TopIsUnique | src/http/routes/analytics.c:46-51 | Those conditions leave one answer |
| TopContent.TopPermuted | src/http/routes/analytics.c:46-51 | Permuting the event log does not change the answer |
| TopContent.TopLength | src/http/routes/analytics.c:46-51 | The answer has as many rows as there are viewed ids, up to the limit |
| TopContent.ScanTop | src/http/routes/analytics.c:46-51 | A loop with a map of counts, an insertion sort and a cut computes the answer |
| TopContent.CountRuns | db/init.sql:70-71 | One pass over an ordered index finds every group once with its count |
| TopContent.IndexIsOrdered | db/init.sql:70-71 | The partial index is in order after every sequence of inserts |
| TopContent.IndexCountsAsLog | db/init.sql:70-71 | The index counts as the log does after every sequence of inserts |
| TopContent.IndexTop | db/init.sql:70-71 | The one-pass evaluation over the index returns the rows of the scan |
| TopContentEvolution.LimitGivesPrefix | src/http/routes/analytics.c:46-51 | A smaller limit gives a prefix |
| TopContentEvolution.WideningNeverLowersCounts | src/http/routes/analytics.c:50 | A wider window never lowers a count |
| TopContentEvolution.ViewRaisesOneCount | src/http/routes/analytics.c:46-51 | One more view raises one count by one and keeps the order of all other contents |
| TopContentEvolution.ViewNeverWorsensRank | src/http/routes/analytics.c:46-51 | The viewed content stays in the answer, at its place or further to the front |
| RequestBody.Body.Append | src/http/request.c:7-32 | Appends exactly within 1 MiB and granted memory; a refusal changes nothing; NUL, bound and canonical capacity are kept |
| RequestBody.Body.Grow | src/http/request.c:16-27 | The doubling loop ends at the capacity determined by the length alone, with less recopied than allocated |
| RequestBody.GrownIsLeastDoubling | src/http/request.c:17-20 | A grown capacity is the least doubling that suffices |
| RequestBody.CapacityBounds | src/http/http_internal.h:12 | Within the limit a buffer has room for the NUL and takes at most 2 MiB; it is 4096 bytes or less than twice what is needed |
| RequestBody.GrownFromGrown | src/http/request.c:17-20 | Growing step by step and growing at once reach the same capacity |
| RequestBody.GuardIsExactUnderTheBound | src/http/request.c:12 | The unsigned guard is exact if and only if the length has kept its bound |
| Upload.ChunkingDoesNotMatter | src/http/http.c:144-176 | Every cut of an upload into non-empty pieces gives one reply, that of the whole body |
| Upload.Exchange.AccessHandler | src/http/http.c:144-176 | One call of the handler, with and without memory: the new progress, the reply if any, `*upload_data_size`, the result code, and what was allocated |
| Upload.Receive | src/http/http.c:144-186 | All calls of one request up to completion, for every cut and every pattern of refused allocations: one reply, dispatch of exactly the whole body or one 413, nothing if the body could not be opened; what was made is freed once |
| Upload.Exchange.RequestCompleted | src/http/http.c:178-186 | On completion every body that was made has been freed once |
| Router.RecognisePrinted | src/http/http.c:14-112 | Recognising a printed route gives back the route, key and content id included |
| Router.PrintRecognised | src/http/http.c:14-112 | Printing a recognised route gives back method and URL |
| Router.RoutesAreDisjoint | src/http/http.c:48-112 | A request other than OPTIONS is recognised as a route exactly when it is that route's line; the order of the tests does not matter |
| Router.FixedEndpoints | src/http/http.c:54-108 | The endpoints without parameters, literally |
| Router.ParameterEndpoints | src/http/http.c:14-90 | The endpoints of favourites and contents, for every key and every id of 1 to 300 bytes |
| Router.OptionsMatchesEveryPath | src/http/http.c:48-54 | OPTIONS, and no other method, is answered on every path as a preflight |
| Router.CopyContentId | src/http/http.c:25-31 | The id copy stays within its 301 bytes |
| Json.ParseBody | src/http/request.c:44-75 | A body counts exactly when it is one object with only blanks behind it |
| Json.StringIsRead | src/http/request.c:77-90 | A string is returned exactly when the field is a string whose text up to its first NUL is that string, within the bounds |
| Validation.Key | src/validation/validation.c:6-21 | Accepts exactly the keys |
| Validation.AnonymousId | src/validation/validation.c:23-37 | Accepts exactly the anonymous ids |
| Validation.Email | src/validation/validation.c:39-48 | Accepts exactly texts of 5 to 254 bytes without blanks, not starting with "@", with a "." somewhere behind some "@" |
| Validation.KeyRule | src/validation/validation.c:6-37 | The lengths and alphabets of keys and anonymous ids |
| Validation.EmailRule | src/validation/validation.c:39-48 | An address has 5 to 254 bytes, no blank, does not start with "@", and has an "@" with a "." behind it |
| Text.LowerMeaning | src/validation/validation.c:66-68 | Only "A" to "Z" change, each to its small letter |
| Validation.LowercaseCopy | src/validation/validation.c:59-71 | Copies the lower-case text with its NUL when it fits, and otherwise leaves the buffer alone |
| Text.EncodingsAreUtf8 | db/init.sql:13 | The encoding of any storable code points is accepted, and `char_length` is their number |
| Text.Utf8IsEncoded | db/init.sql:13 | Nothing else is accepted as UTF-8 |
| Text.ByteBoundsBoundCharacters | db/init.sql:13 | Byte length bounds imply character length bounds for UTF-8 text |
| Numbers.NumeralForm | src/http/routes/analytics.c:17-19 | A numeral is blanks, an optional sign and decimal digits, with the value they say |
| Numbers.DigitsAreDecimal | src/http/routes/analytics.c:17-19 | Digits count in tens, position by position |
| Numbers.RangeAcceptsNumerals | src/http/routes/analytics.c:9-26 | An argument is accepted exactly when it is a numeral of the range, with the value it denotes |
| Numbers.ParseRange | src/http/routes/analytics.c:9-26 | The output is the accepted value, and is untouched on refusal |
| Numbers.DecimalFits | src/http/routes/analytics.c:66-67 | Every 32-bit value prints within 12 bytes |
| Numbers.DecimalRoundTrip | src/http/routes/auth.c:159-166 | What is printed for a statement is read back as itself |
| Config.ParseInteger | src/config/config.c:33-49 | The value lies in its bounds for every text; it is the one number that the text denotes there, if there is one, and else the fallback |
| Config.TakenUnique | src/config/config.c:38-48 | A text denotes at most one setting |
| Config.PlainNumeralIsTaken | src/config/config.c:43-48 | A numeral without a sign counts as what it says, under the bounds |
| Config.WrappedNegativeIsTaken | src/config/config.c:43-44 | A negative numeral counts as its wrapped value and is accepted exactly when that lies in the bounds |
| Config.CreateFromEnvironment | src/config/config.c:74-96 | All four settings are determined by their texts and fallbacks, the numbers lie in their declared ranges and 16 bits hold the port |
| Uuids.ParseKeepsDigits | src/http/authentication.c:13-43 | Whatever the hyphens and letter case, a text converts to the identifier of its own digits, and to no other |
| Uuids.ParsePrinted | src/http/authentication.c:13-43 | The conversion inverts the 36-byte text of an identifier |

## Left out

- libmicrohttpd, libpq and json-c: a request is method, URL, header, query and pieces; the tokenizer is a parameter; JSON rendering, CORS and response headers are plumbing.
- Allocation failure outside the upload buffer and database failure outside the statements' own errors are assumed away.
- bcrypt: only that hashing a password with its own hash reproduces the hash; nothing is claimed about wrong passwords.
- Non-ASCII letters in addresses: `lower` is a parameter that is only known to agree on ASCII.
- Session time zone: a day is 24 hours, as in a database that runs on UTC.
- Identity sequences: they advance on every insert that reaches them and on like conflicts; the wrap at 2^63 and gaps left by failed statements are not modelled.
- Deletion of users and its cascades: no code path deletes users.
- Several threads or processes, start and stop of the server, `src/app/app.c`, `src/main.c` and `src/database/database.c`.
- Methods.PutAndDeleteAreIdempotent: compares rows, because a repeated PUT of a like uses up an identity value.
- Accounts.SessionsFollowConfirmation: takes a clock that does not run back as given.
