# JavaME Google Analytics tracker, modelled in Dafny

This project models `gercan.jme.analytics`, a small Java ME library that
reports page views and events from a MIDlet to Google Analytics. It has
three parts.

**The agent.** `GoogleAnalytics` is a process-wide singleton. `getInstance`
creates it once and checks the account id and the MIDlet on that first
call. The first call also finds the display's colour depth with a shift
loop. The agent builds a root path once. The root path holds the
collector address, the device, account and locale parameters, and the
`__utma` cookie. Each beacon is that root path plus a page-view (`utmp`)
or event (`utme`) parameter.

**The two modes.** In immediate mode a beacon is sent at once, and a
failed send is ignored. Otherwise the beacon is stored and the agent
reloads its snapshot of the store. The caller then drains the queue with
`readAndDispatch`. Each call sends the record at the cursor. After a
successful send it deletes that record and says whether more are left.

**The session.** `SessionData` holds five fields: first, previous and
current timestamps, a visit count and a random user id. On start-up it
is read from the store, advanced or freshly minted, and saved back.
`AnalyticsDataPersistenceUtils` wraps the object store and swallows its
failures.

The Dafny modules follow that structure:

- `JavaLang` models what the agent takes from the Java platform:
  - `int`/`long` ranges and two's-complement wrap-around;
  - `long` division truncating toward zero;
  - decimal rendering of numbers;
  - null as `Option`, and thrown exceptions as `Result` values.
- `Encoder` models the private `encode` method. It has two forms: the
  character loop with its inner byte loop, proved equal to a recursive
  specification. The collector's decoder is included, and the encoder is
  proved lossless against it.
- `Session` models the record, the `SessionData` class and its setters,
  session start-up arithmetic, and the `__utma` cookie.
- `Persistence` is the store:
  - stored events in insertion order, each with an object id;
  - stored session records in insertion order, each with an object id;
  - every store call takes whether it succeeds as a parameter, since the
    device's record store decides when it fails.
- `Beacon` models the root path, page-view and event URLs, and a parser
  for the collector's side of the `utme` value.
- `Analytics` holds:
  - the `GoogleAnalytics` class;
  - the colour-depth loop;
  - session start-up;
  - `Registry`, which models the static `INSTANCE` field and
    `getInstance`.
- `Scenarios` replays the repository's two test classes against the
  model.

Inputs the device provides are parameters of the model:
- the system properties (a map);
- the default charset (a function from a character to its bytes);
- the clock (milliseconds);
- the random user id;
- the MIDlet's canvas size and colour count;
- the HTTP status the collector answers (an oracle; a connection failure
  is any status other than 200).

A ghost trace `sent` records every request the agent makes.

Edge cases of the code that the model keeps:
- `trackPageView("")` throws `StringIndexOutOfBoundsException` at `charAt(0)`; an empty url is not ignored.
- A null category or action makes `trackEvent` throw `NullPointerException` inside `encode`, after the root path has been cached.
- A start-up whose read fails but whose save works inserts its new session as a second record. Later start-ups read the first record, so they continue the older session (`RestartAfterFailedRead`).
- A failed delete after a successful send leaves the record stored while the cursor moves past it. A reload then sends it again.
- Every queued beacon reloads the snapshot. In the dispatch test the beacon queued after the third call is therefore part of the new snapshot; the sixth call sends it and returns false because the cursor has reached the end.

## Model

Paths are relative to the repository root.

| member | source | states |
|---|---|---|
| JavaLang.Wrap32 | src/gercan/jme/analytics/GoogleAnalytics.java:291 | `int` addition wraps: the result is in range and congruent to the exact sum modulo 2^32, and equals it when no overflow happens |
| JavaLang.MillisToSeconds | src/gercan/jme/analytics/GoogleAnalytics.java:278 | `currentTimeMillis() / 1000L` truncates toward zero: bounds from both sides, for non-negative and negative clocks |
| JavaLang.NatToString | src/gercan/jme/analytics/GoogleAnalytics.java:356-358 | the decimal rendering is non-empty and all digits, with no leading zero except for 0 itself |
| JavaLang.IntToString | src/gercan/jme/analytics/GoogleAnalytics.java:329-333 | `append(int/long)` starts with `-` exactly for a negative number; every other character is a digit, the digits have no leading zero except for 0 itself, and they read back as the magnitude |
| JavaLang.ParseNatToString | src/gercan/jme/analytics/GoogleAnalytics.java:356-358 | reading a decimal rendering back gives the number |
| JavaLang.IntToStringInjective | src/gercan/jme/analytics/GoogleAnalytics.java:329-333 | different numbers render differently; `CookieInjective` rests on it |
| Encoder.HexDigit | src/gercan/jme/analytics/GoogleAnalytics.java:388-389 | `digits.charAt(n)` is an upper-case hex digit whose value is `n` |
| Encoder.PercentGroups | src/gercan/jme/analytics/GoogleAnalytics.java:386-390 | one `%XX` group per byte: three characters per byte |
| Encoder.PercentGroupsAlphabet | src/gercan/jme/analytics/GoogleAnalytics.java:386-390 | the groups contain only `%` and upper-case hex digits |
| Encoder.PercentGroupsAppend | src/gercan/jme/analytics/GoogleAnalytics.java:386-390 | the groups of concatenated byte runs are the concatenated groups |
| Encoder.EncodeString | src/gercan/jme/analytics/GoogleAnalytics.java:375-394 | the character loop and the inner byte loop produce exactly the recursive encoding |
| Encoder.EncodeChar | src/gercan/jme/analytics/GoogleAnalytics.java:378-391 | a character is copied exactly when it is unreserved; a copied character or a space takes one output character, any other three per charset byte |
| Encoder.Encode | src/gercan/jme/analytics/GoogleAnalytics.java:375-394 | a string of letters, digits and `.-*_` is its own encoding; when every character has bytes, the encoding is never shorter than the text |
| Encoder.EncodeAlphabet | src/gercan/jme/analytics/GoogleAnalytics.java:375-394 | whatever the charset, the output holds only letters, digits, `.-*_`, `+` and `%` |
| Encoder.EncodeAppend | src/gercan/jme/analytics/GoogleAnalytics.java:377-392 | encoding works character by character, so it distributes over concatenation |
| Encoder.EncodeEscapedChar | src/gercan/jme/analytics/GoogleAnalytics.java:384-390 | a character that is neither unreserved nor a space becomes the `%XX` groups of its charset bytes |
| Encoder.EncodeOneEscaped | src/gercan/jme/analytics/GoogleAnalytics.java:377-392 | between two unreserved runs, only the one escaped character changes |
| Encoder.DecodePercentGroups | src/gercan/jme/analytics/GoogleAnalytics.java:386-390 | the decoder reads the `%XX` groups back as exactly their bytes |
| Encoder.DecodeEncodeChar | src/gercan/jme/analytics/GoogleAnalytics.java:379-390 | each of the three branches (copy, `+` for space, percent groups) decodes to the character's bytes |
| Encoder.DecodeEncode | src/gercan/jme/analytics/GoogleAnalytics.java:375-394 | round trip: with an ASCII-compatible charset, decoding the encoding gives the string's bytes |
| Session.SessionRecord.Set | src/gercan/jme/analytics/SessionData.java:44-78 | a setter changes what its own getter returns and no other getter |
| Session.SessionRecord.Get | src/gercan/jme/analytics/SessionData.java:40-74 | each getter returns a value of its field's Java type: `int` for the user id and visits, `long` for the timestamps |
| Session.RecordsEqualByFields | src/gercan/jme/analytics/SessionData.java:29-33 | a session is determined by its five getters |
| Session.SettersCommute | src/gercan/jme/analytics/SessionData.java:44-78 | setters of different fields commute |
| Session.SetterIdempotence | src/gercan/jme/analytics/SessionData.java:44-78 | setting a field to its own value changes nothing; a second set of the same field overrides the first |
| Session.SessionData.constructor | src/gercan/jme/analytics/SessionData.java:36-38 | a new object's getters all return 0, and it carries no object id yet |
| Session.SessionData.SetUserId | src/gercan/jme/analytics/SessionData.java:44-46 | the new value is the old one with the user id set |
| Session.SessionData.SetFirstTimestamp | src/gercan/jme/analytics/SessionData.java:52-54 | the new value is the old one with the first timestamp set |
| Session.SessionData.SetPrevTimestamp | src/gercan/jme/analytics/SessionData.java:60-62 | the new value is the old one with the previous timestamp set |
| Session.SessionData.SetCurrTimestamp | src/gercan/jme/analytics/SessionData.java:68-70 | the new value is the old one with the current timestamp set |
| Session.SessionData.SetVisits | src/gercan/jme/analytics/SessionData.java:76-78 | the new value is the old one with the visit count set |
| Session.NewSession | src/gercan/jme/analytics/GoogleAnalytics.java:280-287 | a first session has all three timestamps at the start-up time, one visit and the given user id, and is well formed |
| Session.Advance | src/gercan/jme/analytics/GoogleAnalytics.java:288-292 | a later start-up keeps the first timestamp and the user id |
| Session.AdvanceKeepsWellFormed | src/gercan/jme/analytics/GoogleAnalytics.java:288-292 | a clock that has not gone back keeps the session well formed, and visits grow by exactly one while below `int`'s maximum |
| Session.AdvanceWrapsVisits | src/gercan/jme/analytics/GoogleAnalytics.java:291 | at `Integer.MAX_VALUE` the visit count wraps to `Integer.MIN_VALUE`, and the session is no longer well formed |
| Session.AdvanceClockBackwards | src/gercan/jme/analytics/GoogleAnalytics.java:289-290 | a clock that goes back breaks the timestamp order |
| Session.SecondStartUp | src/gercan/jme/analytics/GoogleAnalytics.java:276-295 | the second start-up counts two visits; its previous timestamp is the first start-up's time |
| Session.IntToStringUnreserved | src/gercan/jme/analytics/GoogleAnalytics.java:329-333 | a rendered number, minus sign included, needs no escaping |
| Session.CookieFields | src/gercan/jme/analytics/GoogleAnalytics.java:328-333 | the fields start with the domain hash `999.` and need no escaping |
| Session.CookieText | src/gercan/jme/analytics/GoogleAnalytics.java:326-333 | the cookie text starts with `__utma=999.` |
| Session.CookiePieces | src/gercan/jme/analytics/GoogleAnalytics.java:328-333 | the pieces of the cookie's fields: `999` first, then a dot and a number five times, none needing escaping |
| Session.DottedNumbers | src/gercan/jme/analytics/GoogleAnalytics.java:329-333 | each number is preceded by a dot: two pieces per number, a dot first, none needing escaping |
| Session.Cookie | src/gercan/jme/analytics/GoogleAnalytics.java:325-335 | with an ASCII `=`, the encoded cookie is `__utma%3D` followed by the fields unchanged |
| Session.EscapeEqualsSign | src/gercan/jme/analytics/GoogleAnalytics.java:327 | in `__utma=` followed by unreserved text, only the `=` is escaped |
| Session.EqualsSignEscape | src/gercan/jme/analytics/GoogleAnalytics.java:386-390 | the byte 0x3D encodes as `%3D` |
| Persistence.RemoveId | src/gercan/jme/analytics/AnalyticsDataPersistenceUtils.java:57-64 | deleting by id keeps every other record and only them, keeps ids distinct, and never grows the store |
| Persistence.RemoveIdAt | src/gercan/jme/analytics/AnalyticsDataPersistenceUtils.java:57-64 | with distinct ids, deleting the record at position `k` leaves exactly the records before and after it, in their order |
| Persistence.RemoveIdCount | src/gercan/jme/analytics/AnalyticsDataPersistenceUtils.java:57-64 | deleting a stored record removes exactly one; an unknown id removes nothing |
| Persistence.SetRecord | src/gercan/jme/analytics/AnalyticsDataPersistenceUtils.java:66-73 | saving a loaded object overwrites the record with its id and keeps every other record and the order |
| Persistence.SetFirstRecord | src/gercan/jme/analytics/AnalyticsDataPersistenceUtils.java:33-39 | with distinct ids, saving back the first record read changes only position 0 |
| Persistence.EventStore.constructor | src/gercan/jme/analytics/AnalyticsDataPersistenceUtils.java:31 | a new store holds no events and no sessions |
| Persistence.EventStore.Find | src/gercan/jme/analytics/AnalyticsDataPersistenceUtils.java:47-55 | the stored records in insertion order, or null when the find fails |
| Persistence.EventStore.SaveEvent | src/gercan/jme/analytics/AnalyticsDataPersistenceUtils.java:66-73 | appends one record with a new id; a failing save changes nothing; sessions are untouched |
| Persistence.EventStore.Delete | src/gercan/jme/analytics/AnalyticsDataPersistenceUtils.java:57-64 | removes the record with that id; a failing delete changes nothing |
| Persistence.EventStore.ReadSessionData | src/gercan/jme/analytics/AnalyticsDataPersistenceUtils.java:33-45 | null exactly when the find fails or no session is stored; otherwise a fresh object holding the first stored record's values and its id |
| Persistence.EventStore.SaveSession | src/gercan/jme/analytics/AnalyticsDataPersistenceUtils.java:66-73 | an object never saved is appended as a new record and takes its new id; a loaded object overwrites its own record; a failing save changes nothing; events are untouched |
| Beacon.RootPath | src/gercan/jme/analytics/GoogleAnalytics.java:345-373 | the root path starts with the collector address and ends with `&utmcc=` and the cookie; a null encoding, host name or locale appends `null` (`NullableText`) |
| Beacon.RootPathEndsWithCookie | src/gercan/jme/analytics/GoogleAnalytics.java:345-373 | two root paths of one configuration are equal exactly when their cookies are |
| Beacon.RootPathSplit | src/gercan/jme/analytics/GoogleAnalytics.java:350-368 | the root path is the collector address, then parameters that depend on the configuration only, then the cookie parameter |
| Beacon.LeadingSlash | src/gercan/jme/analytics/GoogleAnalytics.java:143-145 | the page path starts with `/`; it is the url itself exactly when the url starts with `/`, and `/` plus the url otherwise |
| Beacon.LeadingSlashIdempotent | src/gercan/jme/analytics/GoogleAnalytics.java:143-145 | adding the leading slash a second time changes nothing |
| Beacon.PageViewBeacon | src/gercan/jme/analytics/GoogleAnalytics.java:143-149 | a page-view beacon is the root path followed by `&utmp=` and the encoded page path |
| Beacon.EventData | src/gercan/jme/analytics/GoogleAnalytics.java:191-205 | the `utme` value opens with `5(` and closes with `)`, and is at least as long as the encoded category and action plus its four fixed characters |
| Beacon.EventBeacon | src/gercan/jme/analytics/GoogleAnalytics.java:186-205 | an event beacon is the root path followed by `&utmt=event&utme=` and ends with `)` |
| Beacon.EventBeaconParses | src/gercan/jme/analytics/GoogleAnalytics.java:186-205 | without `*` in the texts, an event beacon is the root path and `&utmt=event&utme=`, followed by a value from which the collector reads back the encoded category, action and label (when given), and the value exactly when it is not negative |
| Beacon.PageViewBeaconDecodes | src/gercan/jme/analytics/GoogleAnalytics.java:143-149 | a page-view beacon is the root path and `&utmp=`, followed by a value the collector decodes to the bytes of the slash-prefixed page path |
| Beacon.EncodeKeepsSeparators | src/gercan/jme/analytics/GoogleAnalytics.java:192-200 | encoded text never holds `)`, and holds `*` only where the input did |
| Beacon.ParseValueOf | src/gercan/jme/analytics/GoogleAnalytics.java:201-205 | the `(value)` part is read back as the value exactly when the value is not negative |
| Beacon.SplitEventFields | src/gercan/jme/analytics/GoogleAnalytics.java:192-199 | without `*` in the texts, splitting the fields text at `*` gives the encoded category, action and label |
| Beacon.EventDataParses | src/gercan/jme/analytics/GoogleAnalytics.java:188-205 | without `*` in the texts, the collector reads back the encoded category, action and label (when given), and the value when it is not negative |
| Beacon.EventStarCollision | src/gercan/jme/analytics/GoogleAnalytics.java:192-200 | `*` is not escaped, so the distinct events `(a*b, c)` and `(a, b*c)` send the same beacon |
| Beacon.PlainEventData | src/gercan/jme/analytics/GoogleAnalytics.java:192-200 | an event without label or value is `5(category*action)` |
| Analytics.CookieNumbers | src/gercan/jme/analytics/GoogleAnalytics.java:329-333 | the cookie's five numbers in the order they are appended: user id, first, previous and current timestamps, visits |
| Analytics.SplitDotted | src/gercan/jme/analytics/GoogleAnalytics.java:328-333 | a dot-free head followed by dotted numbers, cut at every dot, gives the head and each number's rendering in order |
| Analytics.CookieFieldsSplit | src/gercan/jme/analytics/GoogleAnalytics.java:328-333 | the cookie fields cut at the dots are exactly `999`, then the user id, first, previous and current timestamps and visits, each rendered in decimal |
| Analytics.CookieInjective | src/gercan/jme/analytics/GoogleAnalytics.java:325-335 | with an ASCII `=`, two sessions give the same cookie exactly when they are equal |
| Analytics.UserAgent | src/gercan/jme/analytics/GoogleAnalytics.java:297-311 | the user agent starts with the platform and ` (Profile/`, and ends with `)`; each property is read with `Property` (a missing key is null) and appended with `NullableText` (null appends `null`) |
| Analytics.Shr | src/gercan/jme/analytics/GoogleAnalytics.java:120 | `x >> s` is the floor of `x / 2^s`, for negative `x` too |
| Analytics.LoopDepth | src/gercan/jme/analytics/GoogleAnalytics.java:116-120 | the loop's result is at least 2 and agrees with the logarithm modulo 32; from 4 colours on it is the logarithm |
| Analytics.Pow2 | src/gercan/jme/analytics/GoogleAnalytics.java:120 | helper for `Shr` and `Log2`: powers of two are at least 1 |
| Analytics.Log2 | src/gercan/jme/analytics/GoogleAnalytics.java:116-120 | the binary logarithm brackets its argument between two consecutive powers of two |
| Analytics.ShrIsOne | src/gercan/jme/analytics/GoogleAnalytics.java:120 | `colors >> d` is 1 exactly when `d` is the logarithm of `colors` |
| Analytics.Log2OfInt | src/gercan/jme/analytics/GoogleAnalytics.java:116 | a positive `int` has logarithm at most 30 |
| Analytics.LoopDepthRange | src/gercan/jme/analytics/GoogleAnalytics.java:117-120 | the loop's result is between 2 and 33 and congruent to the logarithm modulo 32 |
| Analytics.LoopExit | src/gercan/jme/analytics/GoogleAnalytics.java:118-120 | the loop stops at the first distance congruent to the logarithm |
| Analytics.FewColors | src/gercan/jme/analytics/GoogleAnalytics.java:116-120 | four colours or more exactly when the logarithm is at least 2 |
| Analytics.ColorDepth | src/gercan/jme/analytics/GoogleAnalytics.java:116-120 | the do-while terminates for every positive colour count; with 4 or more colours it yields the bits per pixel, and with fewer it runs past the 32-bit shift wrap to `32 + log2` |
| Analytics.BuildEventData | src/gercan/jme/analytics/GoogleAnalytics.java:191-205 | the appends of `trackEvent`, each text run through the encoding loop, build exactly the `utme` value |
| Analytics.StartedSession | src/gercan/jme/analytics/GoogleAnalytics.java:276-295 | without a session read all three timestamps are now, with one visit and the random user id; with one, the first timestamp and user id are kept, the previous timestamp is the stored current one, visits are the stored count plus one with `int` wrap-around, and the current timestamp is now |
| Analytics.StartedSessionWellFormed | src/gercan/jme/analytics/GoogleAnalytics.java:276-295 | start-up keeps the session invariant while the clock moves forward and visits have room |
| Analytics.InitSessionData | src/gercan/jme/analytics/GoogleAnalytics.java:276-295 | the agent's session is started from the first stored session, or minted when the read fails or finds none; a working save overwrites the record that was read, or appends the minted session as a new record even when the store already holds one; the events are untouched |
| Analytics.RestartAfterFailedRead | src/gercan/jme/analytics/GoogleAnalytics.java:276-295 | after a start-up whose read fails but whose save works the store holds two session records, and the next start-up continues the first run's session, not the second's |
| Analytics.GoogleAnalytics.constructor | src/gercan/jme/analytics/GoogleAnalytics.java:72-81 | the configuration and system properties are recorded, the user agent is built from the properties, queued mode is on, nothing is cached, and the session has started |
| Analytics.GoogleAnalytics.GetCookie | src/gercan/jme/analytics/GoogleAnalytics.java:325-335 | the cookie is the encoding of `__utma=999.` and the session's fields |
| Analytics.GoogleAnalytics.GetRootPath | src/gercan/jme/analytics/GoogleAnalytics.java:345-373 | built once from the configuration and the start-up session, then cached; a cached value is returned unchanged |
| Analytics.GoogleAnalytics.MakeRequest | src/gercan/jme/analytics/GoogleAnalytics.java:313-323 | one request is recorded; it succeeds exactly on status 200 |
| Analytics.GoogleAnalytics.LoadEventSet | src/gercan/jme/analytics/GoogleAnalytics.java:270-273 | the snapshot is the store's records (null if the find fails) and the cursor is 0 |
| Analytics.GoogleAnalytics.Route | src/gercan/jme/analytics/GoogleAnalytics.java:151-164 | immediate mode sends one request and leaves the queue alone; queued mode stores one record with a new id if the save works, reloads the snapshot (null if that find fails) and sends nothing; the save and the find fail independently |
| Analytics.GoogleAnalytics.TrackPageView | src/gercan/jme/analytics/GoogleAnalytics.java:139-166 | a null url changes nothing; an empty url throws `StringIndexOutOfBoundsException` and changes nothing; otherwise the page-view beacon over the cached root path is routed by mode |
| Analytics.GoogleAnalytics.TrackEvent | src/gercan/jme/analytics/GoogleAnalytics.java:186-220 | the root path is cached first; a null category or action then throws `NullPointerException` with the queue untouched; otherwise the event beacon is routed by mode |
| Analytics.GoogleAnalytics.IsImmediate | src/gercan/jme/analytics/GoogleAnalytics.java:225-227 | returns the mode |
| Analytics.GoogleAnalytics.SetImmediate | src/gercan/jme/analytics/GoogleAnalytics.java:234-236 | sets the mode and nothing else, so the agent stays consistent |
| Analytics.GoogleAnalytics.ReadAndDispatch | src/gercan/jme/analytics/GoogleAnalytics.java:247-269 | loads a snapshot if none; no snapshot, an empty one or a cursor past its end gives false and sends nothing; a failed send gives false and changes nothing else; a successful one advances the cursor, deletes the sent record when the delete works, and reports whether the cursor is still inside the snapshot |
| Analytics.DispatchDeletesOne | src/gercan/jme/analytics/GoogleAnalytics.java:257-263 | a successful dispatch removes exactly one stored record, and every record not yet sent stays stored |
| Analytics.DispatchIsFifo | src/gercan/jme/analytics/GoogleAnalytics.java:257-263 | when the store holds the unsent part of the snapshot, dispatching removes its oldest record, so it keeps doing so |
| Analytics.Registry.constructor | src/gercan/jme/analytics/GoogleAnalytics.java:55 | no instance exists yet |
| Analytics.Registry.GetInstance | src/gercan/jme/analytics/GoogleAnalytics.java:96-126 | once an instance exists it is returned whatever the arguments; before that a null account id, then a null MIDlet, throws `IllegalArgumentException` with its message; otherwise a new instance gets the canvas size, the loop's colour depth and a started session, saved as `InitSessionData` does |
| Scenarios.InitChecks | test/gercan/jme/analytics/test/GoogleAnalyticsInitTest.java:35-63 | a null MIDlet and a null account id are rejected; two later calls return the same object |
| Scenarios.QueuePageView | test/gercan/jme/analytics/test/PageViewTrackEventTest.java:54 | in queued mode a page view adds one stored record and reloads the snapshot |
| Scenarios.QueueEvent | test/gercan/jme/analytics/test/PageViewTrackEventTest.java:55 | in queued mode an event adds one stored record and reloads the snapshot |
| Scenarios.DispatchNext | test/gercan/jme/analytics/test/PageViewTrackEventTest.java:62 | a successful dispatch over a store in step with the snapshot keeps it in step and advances the cursor by one |
| Scenarios.SendPageView | test/gercan/jme/analytics/test/PageViewTrackEventTest.java:43 | in immediate mode a page view sends its beacon at once and stores nothing |
| Scenarios.SendEvent | test/gercan/jme/analytics/test/PageViewTrackEventTest.java:48 | in immediate mode an event sends its beacon at once and stores nothing |
| Scenarios.ImmediateAgent | test/gercan/jme/analytics/test/PageViewTrackEventTest.java:42 | a fresh agent switched to immediate mode has sent and stored nothing |
| Scenarios.ImmediateSends | test/gercan/jme/analytics/test/PageViewTrackEventTest.java:41-49 | on an agent as `ImmediateAgent` leaves it, for any page path and event, the two immediate calls make exactly the page-view request and then the event request, and store nothing |
| Scenarios.StartAgent | test/gercan/jme/analytics/test/PageViewTrackEventTest.java:36-39 | the first `getInstance` over an empty store yields a valid agent |
| Scenarios.QueueFive | test/gercan/jme/analytics/test/PageViewTrackEventTest.java:51-58 | five queued beacons leave five records and a snapshot of all five |
| Scenarios.DispatchLoop | test/gercan/jme/analytics/test/PageViewTrackEventTest.java:51-71 | the dispatch loop counts exactly six calls and leaves the store empty |

## Left out

- HTTP: the request is not modelled beyond a status oracle. `Connector.open`, the request headers, and a connection that throws (modelled as a non-200 status) are out of scope.
- Console logging in `makeRequest` is left out.
- Concurrency: the `synchronized` blocks on `GoogleAnalytics.class`, `INSTANCE` and `dataLock` are not modelled; every call runs alone.
- The object store is abstract. Floggy's `PersistableManager`, `ObjectSet` and its lazy loading, and the kind of `FloggyException`, are not modelled. Whether each store call fails is a parameter of the operation that makes it: a failing find reads as null, and a failing save or delete does nothing. The stack traces printed on failure are left out.
- Records are found in the order they were inserted, so `set.get(0)` is the oldest stored session. The record store's real enumeration order belongs to the device.
- `EventData` appears only as its id and URL. EventData.java is not part of this model.
- Analytics.Registry.GetInstance requires a positive colour count on the first call with an account id and a MIDlet, the one call that runs the colour loop. For 0 or fewer colours the source's do-while never stops (`colors >> d` is never 1), and the model does not express divergence.
- Analytics.ColorDepth requires a positive colour count for the same reason.
- The temporary `Canvas` and `Display` are left out. The MIDlet is reduced to the canvas size and colour count they report.
- System properties are a map. A missing key reads as null and renders as `null`, as `StringBuffer.append` does.
- `String.getBytes()` with the platform's default charset is a function parameter from a character to bytes. The round-trip lemmas assume it agrees with ASCII on letters, digits, `.-*_` and space.
- Dafny's `char` cannot hold a lone UTF-16 surrogate. Strings with unpaired surrogates are not modelled.
- The random user id and the clock are inputs. The model requires the id to lie in `[0, 9999999)`, as `Random.nextInt(9999999)` guarantees.
- The getters of `SessionData` are read as its fields.
- Scenarios.ImmediateSends takes the page path and the event as parameters rather than the test's literal values (`/someview`, `category`, `action`, `label`, 1001). This is the more general statement, and it keeps the proof small. It starts from the agent `ImmediateAgent` returns rather than creating one itself.
- Encoder.Encode: a character above U+FFFF is one step of the model, where Java's loop takes its two UTF-16 units one at a time and calls `getBytes` on each alone. The model matches Java only when the charset parameter maps such a character to the concatenated bytes Java produces for its two units.
