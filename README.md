# Session middlewares, flag/env merging and CutAny, in Dafny

This project models the core of the Go repository `yhnw/tmp`:

- **`httpsession`.** This is the net/http middleware that tracks HTTP sessions. On each request it:
  - resolves the session cookie;
  - loads the session record from a `Store`, or creates a fresh one;
  - guards the session ID against concurrent requests;
  - wraps the response writer so that the session is saved (with its `Set-Cookie`) before the first byte or status goes out, and saves afterwards if the handler wrote nothing.

  Handlers use `Get`, `ID`, `Delete`, `Renew` and `Populate` on the request's record. The in-memory reference store keeps a map with lazy expiry.
- **`sessions`.** This is the earlier variant of the same middleware. It adds configuration defaults (`cmp.Or`) and a pluggable codec. Its `save` emits the delete cookie itself, and it sets the session cookie only after the store has the record. A handler that writes nothing ends in `panic("unreachable")`.
- **`flagenv`.** This merges a config file, the process environment and the command line into one argument list for a `flag.FlagSet`. It covers:
  - the line-oriented config file parser;
  - the flag-name to env-name mapping;
  - the precedence rules of `Parse`.
- **`util.CutAny`.** This cuts a string at the first character of a set.

Modules:

| file | module | models |
|---|---|---|
| `wrappers.dfy` | `Wrappers` | `Option` and `Result` |
| `clock.dfy` | `Clock` | instants and durations as integer nanoseconds, strict `After`, `int(d.Seconds())`, the deadline rule |
| `gostrings.dfy` | `GoStrings` | the parts of Go's `strings` package the core calls (`Cut`, `CutPrefix`, `TrimSpace`, `Fields`, `Lines`, `IndexAny`, `TrimLeft`, `ToUpper`, `ReplaceAll`) and decimal formatting |
| `util.dfy` | `Util` | `CutAny` |
| `flagenv.dfy` | `FlagEnv` | `flagNameToEnvName`, `dupError`, `syntaxError`, `loadConfigFile`, `Parse` |
| `records.dfy` | `Records` | the session `Record`, cookies, the request's cookies, the response writer |
| `memory.dfy` | `Memory` | `memoryStore` of `httpsession` |
| `stores.dfy` | `Stores` | the `Store` interface: memory-store contents plus a failure oracle |
| `httpsession.dfy` | `HttpSession` | `Handler`, `sessionWriter`, `saveSession`, `saveRecord`, `setCookie`, `deleteCookie`, `newRecord`, `recordFromContext`, `Get`, `ID`, `Delete`, `Renew`, `Populate`, `NewMiddleware` |
| `sessions.dfy` | `Sessions` | `NewMiddleware`, `Wrap`, `sessionWriter`, `loadOrCreate`, `save`, `newRecord`, `Get`, `Token`, `Delete`, `Renew`/`RenewID`/`renewID` |

How the state is modelled:

- **Types.**
  - Time is an `int` of nanoseconds, and `After` is strict `>`.
  - `MaxAge` is the duration's whole seconds, truncated toward zero.
  - The application's session value `T` is an opaque `Payload`, and `new(T)` is `ZeroPayload`.
- **State that changes in place is a class.** This covers the request's `*Record`, the `sessionWriter` with its `saved`/`failed` flags, the middleware's set of active session IDs, and the memory store's map.
- **The request's record.** Each middleware operation takes the record from the context as an `Option<Record>`. `None` stands for a request that did not pass through the middleware.
- **A whole request.** It is a method run over the request's cookies and a script of handler actions. Each action carries its own clock reading.
- **Panics and errors.** A panic is a `Panics(message)` result and a returned error is `Errored(error)`. A `Response` object records what reaches the client.
- **The `Store` interface.** Its contents behave like the memory store. The function `fails` says which calls return an error, and a failing call changes nothing. `NewMiddleware`'s memory store never fails.
- **Flag lines, read two ways.** `LoadLine` takes a `Reading`. `AsWritten` is the code's own reading of a flag line's name (up to the first '='), and `LoadConfig`, `LoadConfigFile` and `Parse` use it. `Corrected` stops a "-name value" line's name at its first space. It exists only for the finding below, and the duplicate lemmas are proved for both readings.
- **The state a handler leaves.** A `Snapshot` of the record, the store, the response and whether a write ran the save protocol. `HttpSession.Middleware.AfterHandler` says what the post-handler save makes of it. `HttpSession.Middleware.HandlerStart` is the snapshot a handler starts from, so a request's end state can be followed from its cookies and the store.
- **Two-level specifications.** Methods are proved against specification functions: `SaveRecordSpec`, `SaveSpec`, `LookupSpec`, `LoadOrCreateSpec`, `PopulateFrom`, `LoadConfig`/`LoadLines` and `ParseArgs`. The lemmas state what those functions guarantee.

Where the repository's tests disagree with the code, the model follows the code:

- **Untouched sessions are saved.** `httpsession/httpsession_test.go` expects an untouched or read-only request to store nothing. `httpsession/httpsession.go:131-135` saves every record that was not deleted. `HttpSession.Middleware.Serve` states the code's behaviour: one save per request that does not panic.
- **Different API.** The tests of both packages and of the memory store are written against a generic `Record[T]` and `Load(ctx, id, &r) (bool, error)`. Only their behaviours that agree with the code are reflected here.

## Model

| member | source | states |
|---|---|---|
| Clock.TruncSeconds | httpsession/httpsession.go:212 | `int(d.Seconds())`: for a non-negative duration, the largest whole seconds not above it. For a negative one, the nearest whole seconds toward zero. |
| Clock.SavedIdleDeadline | httpsession/httpsession.go:230-233 | The saved idle deadline is at most the absolute deadline and at most now + IdleTimeout, and it is one of the two: their minimum. |
| Clock.SavedIdleDeadlineZeroAbsolute | httpsession/httpsession.go:230-233 | With a zero absolute timeout, the saved idle deadline is now itself. |
| Util.CutAny | util/util.go:5-12 | `ok` is false exactly when no character of `chars` occurs in `b`, and then the result is (`b`, "", false). Otherwise `before` is the prefix of `b` up to the first character in `chars` and holds none of them. `after` is the suffix of `b` left after stripping its whole leading run of `chars` characters, so it is empty or starts outside `chars`. |
| Util.CutAnyAfterIsInput | util/util.go:11 | When the first match is past position 0, `after` is the whole input, not the text after the match. |
| Util.CutAnyAtStart | util/util.go:11 | When the first character is in `chars`, `ok` holds, `before` is empty and `after` is strictly shorter than the input. |
| Records.CookiesNamed | httpsession/httpsession.go:95 | Every cookie kept comes from the request and has the given name; every cookie of the request with that (non-empty) name is kept; none for the empty name. Order and multiplicity: `CookiesNamedAppend`. |
| Records.CookiesNamedAppend | httpsession/httpsession.go:95 | The named cookies of `a + b` are those of `a` followed by those of `b`, so the filter keeps the request's order and every repeat. |
| Records.CookiesNamedSingle | httpsession/httpsession.go:95 | One cookie is kept exactly when it carries the (non-empty) name asked for. |
| Records.OfferedID | httpsession/httpsession.go:95-101 | Whenever an ID is offered, the request carries a cookie with the session's name and that value. The converse for a single cookie is `OneNamedCookie`. |
| Records.OneNamedCookie | httpsession/httpsession.go:95-96 | A request with exactly one cookie of the session's (non-empty) name offers that cookie's value, and the filter yields just that cookie. |
| Records.NoNamedCookie | httpsession/httpsession.go:95 | A request with no cookie of the session's name offers no ID. |
| Records.TwoCookiesOfferNone | sessions/sessions.go:149-152 | Two cookies with the session's name offer no ID at all, so the store is not consulted. |
| Records.DeleteCookie | httpsession/httpsession.go:216-220 | The delete cookie is the configured template with a negative MaxAge; every other field is the template's. |
| Records.SetCookieFor | httpsession/httpsession.go:209-214 | The session cookie is the template carrying the record's ID, with every other field but MaxAge kept. MaxAge is the whole seconds left until the idle deadline, truncated toward zero. It is non-negative and less than a second short of the time left when the deadline is not past, and at most zero when it is. |
| Memory.LoadFrom | httpsession/memorystore.go:18-26 | `Load` finds a record exactly when its ID is present and the clock is not strictly after its idle deadline. |
| Memory.SaveInto | httpsession/memorystore.go:28-36 | After `Save`, the keys are the old keys plus the record's ID, or unchanged when the record has already expired. |
| Memory.Unexpired | httpsession/memorystore.go:45-55 | After the sweep, an ID is present exactly when it was present and not expired, and its record is unchanged. |
| Memory.SaveThenLoad | httpsession/memorystore.go:18-36 | A record that is live when saved and live when loaded loads back equal to what was saved. |
| Memory.SaveKeepsOthers | httpsession/memorystore.go:33 | `Save` changes no key other than the record's own, neither its presence nor its value. |
| Memory.ExpiredSaveIsNoop | httpsession/memorystore.go:29-31 | Saving an already expired record leaves the map unchanged, even a stale entry under the same ID. |
| Memory.DeleteIdempotent | httpsession/memorystore.go:38-43 | `Delete` removes exactly that key. Deleting again, or deleting an absent ID, changes nothing. |
| Memory.DeadlineNowIsLive | httpsession/memorystore.go:18-55 | A record whose idle deadline equals now is still saved, loaded and kept by the sweep. |
| Memory.SweepKeepsLoads | httpsession/memorystore.go:45-55 | A sweep changes no `Load` made at the same instant. |
| Memory.KeysMatchKept | httpsession/memorystore.go:28-55 | Records stay filed under their own IDs through `Save`, `Delete` and `DeleteExpired`. |
| Memory.MemoryStore.constructor | httpsession/memorystore.go:14-16 | A new store is empty. |
| Memory.MemoryStore.Load | httpsession/memorystore.go:18-26 | Returns `LoadFrom` of the map: the stored copy, or none for a missing or expired ID. Never errs. |
| Memory.MemoryStore.Save | httpsession/memorystore.go:28-36 | The map becomes `SaveInto` of the old map. Never errs. |
| Memory.MemoryStore.Delete | httpsession/memorystore.go:38-43 | The map loses exactly that key. Never errs. |
| Memory.MemoryStore.DeleteExpired | httpsession/memorystore.go:45-55 | The loop leaves exactly the unexpired entries with their values, by an invariant over the IDs still to visit. Never errs. |
| Stores.Store.Load | httpsession/httpsession.go:19-23 | Returns the oracle's error for this call, or else the memory store's `Load`. |
| Stores.Store.Save | httpsession/httpsession.go:25-26 | Returns the oracle's error and changes nothing, or else saves as the memory store does. |
| Stores.Store.Delete | httpsession/httpsession.go:28-29 | Returns the oracle's error and changes nothing, or else deletes as the memory store does. |
| HttpSession.DefaultFirstSave | httpsession/httpsession.go:67-84 | Under the defaults (24 h idle, 7 days absolute), a fresh session saved at creation idles out after 24 hours, and its cookie's MaxAge is 86400. |
| HttpSession.SavedCookieLifetime | httpsession/httpsession.go:209-214 | The cookie of a save carries the record's ID and a non-negative MaxAge. That MaxAge covers neither more than the idle timeout nor more than what is left until the absolute deadline. |
| HttpSession.Middleware.constructor | httpsession/httpsession.go:67-84 | `NewMiddleware`: default timeouts and cookie template, a fresh empty memory store whose failure oracle fails no call, no active session. |
| HttpSession.Middleware.Configured | httpsession/httpsession.go:51-64 | A `Middleware` whose exported fields the caller set: exactly those timeouts, cookie template and store, the given JSON encoding of `T`, and no active session. |
| HttpSession.Middleware.SaveRecordSpec | httpsession/httpsession.go:223-239 | A deleted session is reported as deleted, with no store change. Otherwise the idle deadline is the minimum of now + IdleTimeout and the absolute deadline, and the ID and absolute deadline are kept. The save succeeds exactly when encoding and the store's `Save` both succeed, and then reports `RecordSaved`, the data is the encoding of the session and the store holds the record. Otherwise the result is the encoding's error, or else the store's, and the store is unchanged. |
| HttpSession.Middleware.SavedSessionLoads | httpsession/httpsession.go:223-239 | A session saved before its absolute deadline loads back as saved until its new idle deadline, which does not pass the absolute deadline. |
| HttpSession.Middleware.ZeroAbsoluteTimeout | httpsession/httpsession.go:230-238 | When the absolute deadline is now, the idle deadline becomes now and the record is still stored and loadable at that instant. |
| HttpSession.Middleware.NewRecord | httpsession/httpsession.go:241-247 | A fresh record: the given random ID, a zero idle deadline, absolute deadline now + AbsoluteTimeout, no data and a zero session. |
| HttpSession.Middleware.SaveRecord | httpsession/httpsession.go:223-239 | The record, the store and the result become what `SaveRecordSpec` says. The session value is untouched. |
| HttpSession.Middleware.SaveSession | httpsession/httpsession.go:196-220 | After a successful save it sets exactly one cookie: `MaxAge = -1` for a deleted session, otherwise value = ID and MaxAge = whole seconds to the idle deadline. After a failed save it sets no cookie and returns the error. Nothing else is written. |
| HttpSession.Middleware.CookieAfter | httpsession/httpsession.go:201-205 | Always the template's name, path and domain. For a deleted session a negative MaxAge and the template's value. For a saved one the record's ID, with a MaxAge that does not outlast its idle deadline. |
| HttpSession.Middleware.Get | httpsession/httpsession.go:274-280 | Panics "middleware was not used" without a record and "session alreadly deleted" after `Delete`. Otherwise returns the session. |
| HttpSession.Middleware.ID | httpsession/httpsession.go:282-285 | Panics without a record. Otherwise returns its current ID. |
| HttpSession.Middleware.Delete | httpsession/httpsession.go:287-294 | Calls the store's `Delete` on the ID at once. On error it returns it and changes nothing. Otherwise the store loses the ID and the session becomes nil. The record's fields stay. |
| HttpSession.Middleware.Renew | httpsession/httpsession.go:298-311 | Deletes the old ID from the store first, and on error changes nothing. Otherwise the record takes the new ID (a random one for "") and absolute deadline now + AbsoluteTimeout, keeping its session, data and idle deadline. |
| HttpSession.Middleware.PopulateFrom | httpsession/httpsession.go:254-271 | A run that does not panic had a string then a session in every remaining pair. What it stores: `PopulateStoresPair` and `PopulateKeepsOthers`. |
| HttpSession.Middleware.PopulateKeepsOthers | httpsession/httpsession.go:254-271 | A key that no remaining pair names keeps its presence and its record. |
| HttpSession.Middleware.PopulateStoresPair | httpsession/httpsession.go:263-268 | In a run that does not panic, the last pair with a given ID leaves under that ID a fresh record: the idle deadline is min(now + IdleTimeout, now + AbsoluteTimeout), the absolute deadline now + AbsoluteTimeout, and the data the encoding of the pair's session. This holds whenever that idle deadline has not passed. |
| HttpSession.Middleware.Populate | httpsession/httpsession.go:249-272 | An empty or odd argument list panics before anything is saved. Otherwise the pairs are saved as fresh records, in order, until a pair of the wrong types or a failed save panics with its message; the store ends as `PopulateFrom` says. |
| HttpSession.Middleware.SavePair | httpsession/httpsession.go:255-270 | One pair: either the run panics here with this store, or the rest of the run continues from the new store. |
| HttpSession.Middleware.LookupSpec | httpsession/httpsession.go:95-104 | Without exactly one cookie of the configured name, nothing is looked up. The lookup fails exactly when an ID is offered and the store's `Load` of it fails, and then with that error. A record is found exactly when an ID is offered, `Load` does not fail and the store holds a live record under it, and that record is the one found. |
| HttpSession.Middleware.SingleCookieFindsRecord | httpsession/httpsession.go:95-101 | A request with exactly one cookie of the session's name, whose `Load` does not fail and finds a live record, is served that record. |
| HttpSession.Middleware.LoadOffered | httpsession/httpsession.go:95-101 | The lookup at the start of a request is `LookupSpec` of the store's current map. |
| HttpSession.Middleware.ServeHTTP | httpsession/httpsession.go:88-137 | A load error, a busy session ID or a decode error goes to the error handler, and then the handler does not run: no save, no cookie, no body. The request conflicts exactly when the resolved ID is active. The active set is the same afterwards, so the captured ID is released even after `Renew`. At most one save runs, and exactly one when the handler returned. A handler that runs starts from `HandlerStart`: the loaded record with its decoded session, or a new record under the random ID, over the store as the request found it. A request that completes ends in the state `AfterHandler` gives for the state the handler left, and that state had no write when the handler wrote nothing. A handler with no steps panics never and leaves its start state as it was. So a request without a session cookie whose handler does nothing is served and stores its new record, loadable at the end of the request, when the zero session encodes and the store's `Save` succeeds. |
| HttpSession.Middleware.HandlerStart | httpsession/httpsession.go:102-119 | The state a handler starts from, as a definition: the found record with its decoded session, or `newRecord` under the random ID with the zero session; the store and response as the request found them; no write yet. `ServeHTTP` states that it is where the handler starts. |
| HttpSession.Middleware.UntouchedFreshRequestSaved | httpsession/httpsession.go:102-104 | Without a session cookie, and with a handler that changed nothing, the post-handler save stores the new record under the random ID with the encoded zero session. It loads back at the end of the request, no error is reported and no cookie is set. |
| HttpSession.Middleware.Serve | httpsession/httpsession.go:110-135 | Runs only while the record's ID is held in the active set. The save protocol runs at most once, and exactly once unless the handler panicked. After a handler that returned, the record, store, cookies, statuses, body and errors are what `AfterHandler` makes of the state the handler left. After a panic they stay as the handler left them. A handler that writes nothing leaves no write recorded; one with no steps does not panic and leaves the record, store and response as they were. |
| HttpSession.Middleware.AfterHandler | httpsession/httpsession.go:131-135 | After a write ran the save protocol nothing more happens. In every case the post-handler step sets no cookie and writes no status or body. |
| HttpSession.Middleware.AfterHandlerSaves | httpsession/httpsession.go:131-135 | When the handler wrote nothing and left a session that encodes and saves, no error is reported. The data is the encoded session, and the session loads back as saved until its new idle deadline. |
| HttpSession.Middleware.AfterHandlerOfDeleted | httpsession/httpsession.go:131-135 | After a handler that deleted its session, the post-handler save stores nothing and reports nothing. |
| HttpSession.Middleware.AfterHandlerReportsFailure | httpsession/httpsession.go:131-135 | When the handler wrote nothing and encoding or the store's `Save` fails, the store stays as the handler left it and exactly that error goes to the error handler. |
| HttpSession.Middleware.RunHandler | httpsession/httpsession.go:129 | The writer stays valid, and its `saved`/`failed` flags never go back. A handler that writes nothing changes neither the flags nor the cookies and body. A handler with no steps does not panic and changes neither the record, the response nor the store. |
| HttpSession.SessionWriter.constructor | httpsession/httpsession.go:124-128 | A new writer has neither saved nor failed. |
| HttpSession.SessionWriter.Write | httpsession/httpsession.go:148-161 | After a failure: returns len(b) and forwards nothing. After a save: forwards the bytes. Otherwise it first runs `saveSession`: on failure it reports the error once, marks failure and swallows the bytes; on success it marks saved, adds the save's cookie and forwards the bytes. `saved` and `failed` are never both true, and the save runs once. |
| HttpSession.SessionWriter.WriteHeader | httpsession/httpsession.go:163-176 | Like `Write`, for a status code: nothing is forwarded after a failure, and the first call runs the save protocol. |
| Sessions.Configure | sessions/sessions.go:111-133 | Non-positive timeouts become 24 h and 7×24 h. An empty cookie name becomes "SESSIONID" and an empty path "/". HttpOnly and Secure end up true whatever was configured. An unset SameSite becomes Lax. Domain and Partitioned are kept. |
| Sessions.Middleware.constructor | sessions/sessions.go:111-145 | The configured settings. The given store, or a fresh empty memory store that fails no call. The given codec, or JSON. |
| Sessions.Middleware.LoadOrCreateSpec | sessions/sessions.go:285-301 | An empty ID gives a fresh record without a store call. A load error or a decode error is passed on. A missing record gives a fresh record. A loaded record is the store's live record with its decoded session. |
| Sessions.Middleware.NewRecord | sessions/sessions.go:335-342 | A fresh record: random ID, zero idle deadline, absolute deadline now + absoluteTimeout, zero session. |
| Sessions.Middleware.LoadOrCreate | sessions/sessions.go:285-301 | Returns the error, or a new record equal to the fresh or loaded record that `LoadOrCreateSpec` decides. |
| Sessions.Middleware.SaveSpec | sessions/sessions.go:303-333 | A deleted session gets the delete cookie and no store call. Otherwise the idle deadline is min(now + idleTimeout, absolute deadline). The save succeeds exactly when encoding and the store's `Save` both succeed, and then the cookie (value = ID) is set and the store holds the record. Otherwise the error is the encoding's, or else the store's, no cookie is set and the store is unchanged. |
| Sessions.Middleware.CookieOnlyForStoredRecord | sessions/sessions.go:319-331 | Whenever the session cookie is set, the store holds the saved record under the cookie's value. |
| Sessions.Middleware.Save | sessions/sessions.go:303-333 | Record, store, result and cookies become what `SaveSpec` says. Nothing but cookies is written. |
| Sessions.Middleware.Get | sessions/sessions.go:344-347 | Panics "middleware is not used" without a record, and with the nil type assertion's panic after `Delete`. Otherwise returns the session. |
| Sessions.Middleware.Token | sessions/sessions.go:349-352 | Panics without a record. Otherwise returns its current ID. |
| Sessions.Middleware.Delete | sessions/sessions.go:354-361 | Deletes the ID from the store first, and on error changes nothing. Otherwise the session becomes nil. |
| Sessions.Middleware.RenewTo | sessions/sessions.go:363-382 | Deletes the old ID from the store first, and on error changes nothing. Otherwise the record takes the given ID and absolute deadline now + absoluteTimeout, keeping its session. |
| Sessions.Middleware.Wrap | sessions/sessions.go:147-178 | A load or decode error, or an active ID, goes to the error handler before the handler runs, with no save and no output. The active set is restored. At most one save runs. A request that completes normally ran exactly one save, and its handler wrote something. For a handler that never calls `Get` (the only step that can panic), once the request reaches the handler it ends in `panic("unreachable")` exactly when the handler writes nothing, and is served otherwise. |
| Sessions.Middleware.Serve | sessions/sessions.go:163-173 | Runs only while the record's ID is held in the active set. The save ran once exactly when a write ran it. A handler that writes nothing has not run it, and one that writes and returns has. A handler that never calls `Get` does not panic. |
| Sessions.Middleware.RunHandler | sessions/sessions.go:173 | The writer stays valid, and its flags never go back. A handler that writes nothing leaves both flags unset, and one that writes and returns has set one of them. A panic comes only from a `Get` step. |
| Sessions.SessionWriter.constructor | sessions/sessions.go:168-172 | A new writer has neither saved nor failed. |
| Sessions.SessionWriter.Write | sessions/sessions.go:229-242 | Same one-shot protocol as in `httpsession`, with `save`: the delete cookie or the session cookie goes out only as `SaveSpec` says. |
| Sessions.SessionWriter.WriteHeader | sessions/sessions.go:244-257 | Same as `Write`, for a status code. |
| FlagEnv.FlagNameToEnvName | flagenv/flagenv.go:139-144 | Same length; each character is upper-cased, with '-' and '.' turned into '_'. So the result holds no '-', no '.' and no lower-case ASCII letter. |
| FlagEnv.FlagNameToEnvNameIdempotent | flagenv/flagenv.go:139-144 | Mapping an env name again changes nothing. |
| FlagEnv.DupMessageNamesIt | flagenv/flagenv.go:146-148 | A duplicate error's message contains "duplicate error". |
| FlagEnv.SyntaxMessageNamesIt | flagenv/flagenv.go:150-152 | A syntax error's message contains "syntax error". |
| FlagEnv.CleanLineShape | flagenv/flagenv.go:98-99 | A cleaned line holds no '#' and has no space character at either end. |
| FlagEnv.FlagName | flagenv/flagenv.go:104-105 | The corrected reading (see Findings): up to the first '=' when there is one, as the code computes, otherwise the space-free text before the value. |
| FlagEnv.AsWrittenNameKeepsValue | flagenv/flagenv.go:104-105 | On "-a b" the code's flag name is "a b", not "a", so the env name it claims differs from the flag's. |
| FlagEnv.PairLineName | flagenv/flagenv.go:104-105 | On "-name value", the code's flag name runs on to the end of the value, while the corrected one is `name`. Under each reading the line claims the env name of that reading's flag name. |
| FlagEnv.PairLineLoads | flagenv/flagenv.go:103-120 | A "-name value" line whose claimed env name is new appends its two fields. As written it claims the env name of "name value", and corrected that of `name`. |
| FlagEnv.SameNameAfterPairLineFails | flagenv/flagenv.go:103-130 | Corrected reading: after a "-name value" line, any later line claiming `name`'s env name makes the file fail to load. |
| FlagEnv.KeyLineLoads | flagenv/flagenv.go:121-132 | A "KEY=value" line without space, '#' or leading '-' claims KEY. With a new KEY it adds the pair to the env values, and with a KEY seen before it is a duplicate error naming KEY on that line. |
| FlagEnv.EnvNameNoSpace | flagenv/flagenv.go:139-144 | The env name of a flag name without space characters has none either. |
| FlagEnv.AsWrittenMissesDuplicate | flagenv/flagenv.go:103-132 | As written, "-name value" then "NAME=v" (NAME the env name of `name`) loads. The flags are "-name" and "value", NAME is set to v, and the names claimed are those of "name value" and NAME. |
| FlagEnv.CorrectedCatchesDuplicate | flagenv/flagenv.go:103-132 | With the corrected reading, the same two lines fail with a duplicate error on line 2 naming NAME. |
| FlagEnv.FlagPairLine | flagenv/flagenv.go:113-120 | A flag line without '=' loads as its fields when there are exactly two. Otherwise it is "syntax error: found extra characters" with its line number. |
| FlagEnv.NonFlagLineWithSpace | flagenv/flagenv.go:122-124 | A non-flag line with a space in it is "syntax error: found space characters" with its line number. |
| FlagEnv.NonFlagLineWithoutEquals | flagenv/flagenv.go:125-126 | A non-flag line without '=' fails with "missing =". |
| FlagEnv.LoadLineNames | flagenv/flagenv.go:100-133 | Under either reading, a line that loads claims one env name not seen before, and only that one; a blank or comment-only line changes nothing. |
| FlagEnv.LoadedNamesFresh | flagenv/flagenv.go:106-131 | In lines that load onto an accumulator, no non-blank line claims an env name the accumulator had already seen. |
| FlagEnv.LoadedNamesDistinct | flagenv/flagenv.go:106-131 | Under either reading, in a file that loads, the env names of its non-blank lines are pairwise distinct, whether from flag lines or KEY=VALUE lines. |
| FlagEnv.SameNameFails | flagenv/flagenv.go:106-130 | Two non-blank lines claiming the same env name keep the file from loading. |
| FlagEnv.LoadConfigFile | flagenv/flagenv.go:88-137 | The loop with its line counter returns exactly `LoadConfig`, the loader as written: a read error for a missing file, the first line's error, or the flags and env values gathered in order. |
| FlagEnv.LoadLine | flagenv/flagenv.go:97-134 | One turn of the loop as a definition: a blank line is skipped; a flag line claims its flag's env name, then is kept whole with '=' or as its two fields; any other line must be one field `KEY=value` with a new KEY. Its properties are stated by `LoadLineNames`, `FlagPairLine`, `PairLineLoads`, `KeyLineLoads`, `NonFlagLineWithSpace` and `NonFlagLineWithoutEquals`. |
| FlagEnv.LoadLines | flagenv/flagenv.go:95-136 | The loop as a definition: lines in order, numbered from 1, stopping at the first error. Its properties are stated by `LoadedNamesFresh`, `LoadedNamesDistinct` and `SameNameFails`. |
| FlagEnv.LoadConfig | flagenv/flagenv.go:88-137 | `loadConfigFile` as a definition: a read error for a missing file, otherwise the loop from no flags, no env values and no names. `LoadConfigFile` is proved equal to it. |
| FlagEnv.ConfigPath | flagenv/flagenv.go:26-46 | Only the first argument is looked at. The path comes from the env var unless that argument is the config flag, which is then consumed with at most one more argument. The only failure is a bare flag with nothing after it. |
| FlagEnv.ConfigPathForms | flagenv/flagenv.go:28-46 | `-name=path`, `--name=path`, `-name path` and `--name path` all yield `path` and the remaining arguments. A bare `-name` or `--name` fails with "missing arguments". |
| FlagEnv.LocateConfig | flagenv/flagenv.go:26-46 | The imperative extraction returns exactly `ConfigPath`. |
| FlagEnv.MarkFileNames | flagenv/flagenv.go:55-60 | Every env name from the file is marked not yet found, and no other name is marked. |
| FlagEnv.VisitFlags | flagenv/flagenv.go:62-70 | Appends exactly `EnvFlags` and unmarks exactly the env names of the defined flags. |
| FlagEnv.UnclaimedNames | flagenv/flagenv.go:72-82 | The names still marked are the file's names that no flag claims. |
| FlagEnv.UnknownNames | flagenv/flagenv.go:72-78 | Collects exactly the names still marked. |
| FlagEnv.EnvFlagsListed | flagenv/flagenv.go:62-70 | A flag whose env var is set contributes "-flag=<that value>". One whose env var is empty and whose file value is set contributes "-flag=<file value>". Nothing else is contributed, and there are at most as many as flags. |
| FlagEnv.EnvFlags | flagenv/flagenv.go:62-70 | The "-flag=value" arguments `VisitAll` appends, in flag order, as a definition; `EnvFlagsListed` states which they are. |
| FlagEnv.Assemble | flagenv/flagenv.go:55-85 | The argument list after the file is loaded, as a definition: unknown env names fail, else the file's flags, the env flags and the rest; `ArgumentOrder` and `NoConfigFlag` state it. |
| FlagEnv.ParseArgs | flagenv/flagenv.go:12-85 | `Parse` up to `fs.Parse` as a definition: locate the config path, load it, assemble; `Parse` is proved equal to it. |
| FlagEnv.ArgumentOrder | flagenv/flagenv.go:55-85 | With a loaded config file, `Parse` continues exactly when every env name in the file belongs to a flag, else it fails with those unknown names. It then passes the file's flags, then the env flags, then the remaining arguments. |
| FlagEnv.NoConfigFlag | flagenv/flagenv.go:26-85 | Without a config flag name, no file is read: the env flags come first, then the arguments as given. |
| FlagEnv.AddEnvFlags | flagenv/flagenv.go:55-85 | The marking, visiting and unknown check return exactly `Assemble`. |
| FlagEnv.Parse | flagenv/flagenv.go:12-86 | `Parse` up to `fs.Parse` returns exactly `ParseArgs`: the argument list or the first error. |
| GoStrings.Cut | flagenv/flagenv.go:104 | `found` exactly when the separator occurs; then the input is `before`, the separator and `after`, with no separator in `before`; otherwise `before` is the input and `after` is empty. |
| GoStrings.TrimSpace | flagenv/flagenv.go:99 | The result neither starts nor ends with a space; it is the input's text right after its maximal run of leading spaces, and every character the input has after the result is a space. |
| GoStrings.LeadingSpace | flagenv/flagenv.go:99 | The run of spaces `TrimSpace` drops in front is all space and maximal: the next character, if any, is not a space. |
| GoStrings.TrimSpaceOmits | flagenv/flagenv.go:98-99 | Trimming adds no character: a character absent from the input is absent from the trimmed text. |
| GoStrings.FieldsOfAllSpace | flagenv/flagenv.go:122 | `strings.Fields` gives no field exactly when the string is all space. |
| GoStrings.SingleField | flagenv/flagenv.go:122 | A non-empty string without edge spaces is one field exactly when it has no space, and then that field is the string. |
| GoStrings.IndexAny | util/util.go:7 | -1 when no character of `chars` occurs; otherwise the first position holding one of them. |
| GoStrings.TrimLeft | util/util.go:11 | A suffix of the input, preceded only by characters of the cutset and not starting with one. |
| GoStrings.ToUpper | flagenv/flagenv.go:140 | Same length, each character upper-cased (ASCII letters; other code points kept). |
| GoStrings.ReplaceAll | flagenv/flagenv.go:141-142 | Same length; exactly the occurrences of `from` become `to`. |
| GoStrings.Decimal | flagenv/flagenv.go:146-148 | `%d` of a line number: a non-empty string of decimal digits whose value, read most significant digit first, is the number, and which starts with '0' only when it is "0". |

## Left out

- **Cleanup goroutines.** `DeleteExpiredInterval` (httpsession) and `cleanupInterval` (sessions) are timers and goroutines. Each sweep they run is `DeleteExpired`, which is modelled.
- **Concurrency.** `sync.Map` and the store's `sync.RWMutex` are left out. The guard is a set updated sequentially by one request at a time, and concurrent requests are not modelled.
- **Serialization.** JSON, the gob codec and `sessions/codec.go` are abstract encode/decode functions that may fail. On an encoding failure the record's data is modelled as empty, which is what `json.Marshal` leaves; a custom codec's partial output is not captured.
- **net/http plumbing.** Cookie header parsing, Set-Cookie formatting, `http.Error`, `Unwrap`, slog logging and the default error handler's output are left out. The response records cookies, statuses, body bytes and the errors handed to the error handler.
- **Random IDs.** `rand.Text` and `randomID` (crypto/rand with base64) are string parameters.
- **Clocks.**
  - Each step reads the clock once, so `m.now`, `time.Now` and `time.Until`, which the Go code reads separately (including inside the memory store), all see the same instant.
  - Floating-point seconds are exact integer nanoseconds, and `time.Duration` overflow is not modelled.
- **Store failures.** A store other than the memory store is the memory store's contents plus a failure oracle per call. A store that fails only part-way, or has its own expiry rule, is not captured.
- **Other packages.** `httpsession/sqlite3store` and `argon2id` are not part of this model. Neither is `sessions/memorystore.go`: the `sessions` middleware is given the `httpsession` memory store.
- **Panic messages.** `%T` of the session type is the symbolic "*T". The nil type assertion's panic in `sessions.Get` is a fixed message.
- **Handlers that ignore errors.** Handler scripts do not branch on the errors `Delete` and `Renew` return.
- **Record copies.** `sessions` and `httpsession` copy the record out of the store. Here the store keeps `RecordValue`s, and the request's `Record` is a separate object, so no aliasing between them arises.
- **flagenv I/O.**
  - `os.ReadFile` is a map from path to file text, with one read-error form.
  - `os.Getenv` is a map in which an absent name reads as "".
  - `flag.FlagSet` is its sequence of flag names in `VisitAll` order, and `fs.Parse` itself is not modelled: the model stops at the argument list.
- **flagenv formatting.**
  - `%q` in `dupError` is plain double quotes with no escaping.
  - `strings.ToUpper` is modelled for ASCII letters only.
  - The unknown-name error carries a set, since Go's map iteration order is unspecified.
- FlagEnv.EnvFlagsListed: states which arguments the env flags are, not that their order follows `VisitAll` order. The order is fixed by the definition `EnvFlags`.
- GoStrings.Fields, GoStrings.Lines: modelled by their definitions, with only the properties the flagenv proofs need (a single word, a word then a space, all space). The full characterisation of `strings.Fields` and `strings.Lines` is not stated.

## Findings

| source | as written | input that shows it | evidently intended | confidence | as-written member | corrected member |
|---|---|---|---|---|---|---|
| flagenv/flagenv.go:104-107 | The flag name of a config line is everything after '-' up to the first '='. A "-name value" line has no '=', so its flag name is the whole "name value". The env name it claims for duplicate detection, and the name a duplicate error reports, are those of "name value". | A config file with the lines "-a b" then "A=c". The first line claims "A B" and the second "A", so no duplicate error is raised. The flag `a` is then set twice: by "-a b", and by the "-a=c" built from the file's env value. "-a=b" then "A=c" is rejected. | On a "-name value" line the flag name stops at the first space, so the file is rejected as a duplicate of "a", as the tests expect for "-access-key=sss" then "ACCESS_KEY=..." (flagenv/flagenv_test.go:227-250). | not executed | FlagEnv.AsWrittenMissesDuplicate | FlagEnv.CorrectedCatchesDuplicate |
