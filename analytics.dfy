/** The tracking agent `GoogleAnalytics`: the lazily built root path, the
    page-view and event trackers that either send a beacon at once or queue
    it in the store, the caller-driven `readAndDispatch` pump over a
    snapshot of the queue, the session start-up, and the process-wide
    instance that `getInstance` creates once. The transport is an oracle:
    each call that may send is given the status code the collector would
    answer, and a connection failure is any status other than 200. */
module Analytics {
  import opened JavaLang
  import opened Encoder
  import opened Session
  import opened Persistence
  import opened Beacon

  /** `HttpConnection.HTTP_OK`. */
  const HTTP_OK: int := 200

  /** What the host MIDlet's display and a temporary canvas report. */
  datatype Midlet = Midlet(canvasWidth: int32, canvasHeight: int32, numColors: int32)

  /** The system properties the agent reads. */
  const PLATFORM_KEY: string := "microedition.platform"
  const PROFILES_KEY: string := "microedition.profiles"
  const CONFIGURATION_KEY: string := "microedition.configuration"
  const LOCALE_KEY: string := "microedition.locale"
  const ENCODING_KEY: string := "microedition.encoding"
  const HOSTNAME_KEY: string := "microedition.hostname"

  /** The messages of `getInstance`'s argument checks. */
  const MISSING_ACCOUNT_ID: string := "Account id is mandatory can not be null"
  const MISSING_MIDLET: string := "Midlet is mandatory can not be null"

  /** `System.getProperty`: null for an undefined key. */
  function Property(props: map<string, string>, key: string): Option<string> {
    if key in props then Some(props[key]) else None
  }

  /** The user-agent header built by `initFromSytemProperties`. */
  function UserAgent(props: map<string, string>): (u: string)
    ensures var platform := NullableText(Property(props, PLATFORM_KEY));
      && |u| >= |platform| + 10
      && u[..|platform| + 10] == platform + " (Profile/"
      && u[|u| - 1] == ')'
  {
    var platform := NullableText(Property(props, PLATFORM_KEY));
    var head := platform + " (Profile/";
    var middle := NullableText(Property(props, PROFILES_KEY))
      + " Configuration/" + NullableText(Property(props, CONFIGURATION_KEY))
      + "; " + NullableText(Property(props, LOCALE_KEY));
    assert (head + middle + ")")[..|head|] == head;
    head + middle + ")"
  }

  // ---------------------------------------------------------------------
  // The cookie's fields

  /** The decimal renderings of `ns`, in order. */
  function Rendered(ns: seq<int>): (r: seq<string>)
    ensures |r| == |ns| && forall i :: 0 <= i < |ns| ==> r[i] == IntToString(ns[i])
  {
    seq(|ns|, i requires 0 <= i < |ns| => IntToString(ns[i]))
  }

  /** A rendered number holds no dot. */
  lemma NoDotInNumber(n: int)
    ensures '.' !in IntToString(n)
  {
    var r := IntToString(n);
    forall i | 0 <= i < |r| ensures r[i] != '.' {
      if i == 0 && n < 0 {
        assert r[0] == '-';
      } else {
        assert IsDigit(r[i]);
      }
    }
  }

  /** Dotted numbers begin with a dot, the first number, and the dotted
      rest. */
  lemma ConcatDotted(ns: seq<int>)
    requires ns != []
    ensures Concat(DottedNumbers(ns)) == "." + (IntToString(ns[0]) + Concat(DottedNumbers(ns[1..])))
  {
    var d, tail := DottedNumbers(ns), DottedNumbers(ns[1..]);
    assert d == [".", IntToString(ns[0])] + tail;
    assert d[1..] == [IntToString(ns[0])] + tail && d[1..][1..] == tail;
  }

  /** Cutting a dot-free head followed by dotted numbers at every dot gives
      back the head and each number's rendering. */
  lemma {:induction false} SplitDotted(head: string, ns: seq<int>)
    requires '.' !in head
    ensures Split(head + Concat(DottedNumbers(ns)), '.') == [head] + Rendered(ns)
    decreases |ns|
  {
    if ns == [] {
      assert head + Concat(DottedNumbers(ns)) == head;
      SplitWithout(head, '.');
    } else {
      var first := IntToString(ns[0]);
      var rest := Concat(DottedNumbers(ns[1..]));
      assert Split(head + Concat(DottedNumbers(ns)), '.') == [head] + Split(first + rest, '.') by {
        ConcatDotted(ns);
        assert head + Concat(DottedNumbers(ns)) == head + ['.'] + (first + rest);
        SplitAfter(head, '.', first + rest);
      }
      assert Split(first + rest, '.') == [first] + Rendered(ns[1..]) by {
        NoDotInNumber(ns[0]);
        SplitDotted(first, ns[1..]);
      }
      RenderedCons(ns);
    }
  }

  lemma RenderedCons(ns: seq<int>)
    requires ns != []
    ensures Rendered(ns) == [IntToString(ns[0])] + Rendered(ns[1..])
  {
  }

  /** The numbers of the cookie, in the order `getCookie` appends them: the
      user id, the first, previous and current timestamps and the visit
      count. */
  function CookieNumbers(r: SessionRecord): (ns: seq<int>)
    ensures |ns| == 5
  {
    [r.userId, r.firstTimestamp, r.prevTimestamp, r.currTimestamp, r.visits]
  }

  /** `getCookie`'s fields, cut at the dots, are the domain hash `999` and
      then each of the cookie's numbers in decimal, in order. */
  lemma CookieFieldsSplit(r: SessionRecord)
    ensures Split(CookieFields(r), '.') == ["999"] + Rendered(CookieNumbers(r))
    ensures var parts := Split(CookieFields(r), '.');
      && |parts| == 6 && parts[0] == "999"
      && parts[1] == IntToString(r.userId) && parts[2] == IntToString(r.firstTimestamp)
      && parts[3] == IntToString(r.prevTimestamp) && parts[4] == IntToString(r.currTimestamp)
      && parts[5] == IntToString(r.visits)
  {
    var ns := CookieNumbers(r);
    assert CookieFields(r) == "999" + Concat(DottedNumbers(ns)) by {
      var pieces := CookiePieces(r);
      assert pieces == ["999"] + DottedNumbers(ns);
      assert pieces[1..] == DottedNumbers(ns);
    }
    SplitDotted("999", ns);
  }

  /** The cookie identifies the session: with an ASCII `=`, two sessions
      give the same cookie only when all five fields agree. */
  lemma CookieInjective(cs: Charset, r: SessionRecord, s: SessionRecord)
    requires cs('=') == [0x3D]
    ensures Cookie(cs, r) == Cookie(cs, s) <==> r == s
  {
    if Cookie(cs, r) == Cookie(cs, s) {
      var a, b := CookieFields(r), CookieFields(s);
      assert a == b by {
        assert ("__utma%3D" + a)[9..] == a && ("__utma%3D" + b)[9..] == b;
      }
      CookieFieldsSplit(r);
      CookieFieldsSplit(s);
      var m, n := CookieNumbers(r), CookieNumbers(s);
      assert Rendered(m) == Rendered(n) by {
        assert (["999"] + Rendered(m))[1..] == Rendered(m);
        assert (["999"] + Rendered(n))[1..] == Rendered(n);
      }
      forall i | 0 <= i < 5 ensures m[i] == n[i] {
        assert Rendered(m)[i] == Rendered(n)[i];
        IntToStringInjective(m[i], n[i]);
      }
      assert r.userId == m[0] == n[0] == s.userId;
      assert r.firstTimestamp == m[1] == n[1] == s.firstTimestamp;
      assert r.prevTimestamp == m[2] == n[2] == s.prevTimestamp;
      assert r.currTimestamp == m[3] == n[3] == s.currTimestamp;
      assert r.visits == m[4] == n[4] == s.visits;
    }
  }

  // ---------------------------------------------------------------------
  // Colour depth

  function Pow2(n: nat): (p: nat)
    ensures p >= 1
  {
    if n == 0 then 1 else 2 * Pow2(n - 1)
  }

  /** `x >> s` on a Java `int` with a shift distance below 32: an arithmetic
      shift, that is, `s` halvings rounding down. */
  function Shr(x: int, s: nat): (r: int)
    ensures Pow2(s) * r <= x < Pow2(s) * (r + 1)
    decreases s
  {
    if s == 0 then x
    else
      var r := Shr(x / 2, s - 1);
      FloorHalving(x, Pow2(s - 1), r);
      r
  }

  /** If `r` is the floor of `(x / 2) / p`, it is the floor of `x / (2 * p)`. */
  lemma FloorHalving(x: int, p: int, r: int)
    requires p >= 1 && p * r <= x / 2 < p * (r + 1)
    ensures (2 * p) * r <= x < (2 * p) * (r + 1)
  {
    var m := p * r;
    assert p * (r + 1) == m + p;
    assert (2 * p) * r == 2 * m && (2 * p) * (r + 1) == 2 * m + 2 * p;
  }

  /** The floor of the binary logarithm. */
  function Log2(x: int): (r: nat)
    requires x >= 1
    ensures Pow2(r) <= x < 2 * Pow2(r)
  {
    if x == 1 then 0 else 1 + Log2(x / 2)
  }

  /** Shifting a positive number right yields 1 exactly when the shift
      distance is its binary logarithm. */
  lemma {:induction false} ShrIsOne(x: int, s: nat)
    requires x >= 1
    ensures Shr(x, s) == 1 <==> s == Log2(x)
  {
    if s > 0 {
      if x == 1 {
        ShrZero(s - 1);
      } else {
        ShrIsOne(x / 2, s - 1);
      }
    }
  }

  lemma {:induction false} ShrZero(s: nat)
    ensures Shr(0, s) == 0
  {
    if s > 0 {
      ShrZero(s - 1);
    }
  }

  lemma {:induction false} Pow2Monotone(m: nat, n: nat)
    requires m <= n
    ensures Pow2(m) <= Pow2(n)
  {
    if m < n {
      Pow2Monotone(m, n - 1);
    }
  }

  /** A positive `int` has a binary logarithm of at most 30. */
  lemma Log2OfInt(x: int)
    requires 1 <= x <= INT_MAX
    ensures Log2(x) <= 30
  {
    assert Pow2(10) == 1024;
    assert Pow2(20) == 1024 * 1024;
    assert Pow2(31) == 2 * 1024 * 1024 * 1024;
    if Log2(x) >= 31 {
      Pow2Monotone(31, Log2(x));
    }
  }

  /** The colour depth the do-while loop of `getInstance` settles on: the
      first distance from 2 upwards at which `colors >> distance` is 1. Java
      takes a shift distance modulo 32, so for 2 or 3 colours the loop runs
      past 31 and stops at 33, and for one colour at 32. */
  function LoopDepth(colors: int): (depth: int)
    requires colors >= 1
    ensures depth >= 2 && depth % 32 == Log2(colors) % 32
    ensures colors >= 4 ==> depth == Log2(colors)
  {
    var l := Log2(colors);
    if l >= 2 then l else 32 + l
  }

  /** The colour-depth loop of `getInstance`. It ends for every positive
      colour count; for 4 colours or more its result is the floor of the
      binary logarithm, the number of bits per pixel. */
  method ColorDepth(colors: int32) returns (depth: int32)
    requires colors >= 1
    ensures depth == LoopDepth(colors)
    ensures colors >= 4 ==> depth == Log2(colors) && Pow2(depth) <= colors < 2 * Pow2(depth)
    ensures colors < 4 ==> depth == 32 + Log2(colors)
  {
    LoopDepthRange(colors);
    depth := 1;
    depth := depth + 1;
    ShrIsOne(colors, depth % 32);
    while Shr(colors, depth % 32) != 1
      invariant 2 <= depth <= LoopDepth(colors)
      invariant Shr(colors, depth % 32) == 1 <==> depth % 32 == Log2(colors)
      decreases LoopDepth(colors) - depth
    {
      depth := depth + 1;
      ShrIsOne(colors, depth % 32);
    }
    LoopExit(colors, depth);
    FewColors(colors);
  }

  lemma LoopDepthRange(colors: int)
    requires 1 <= colors <= INT_MAX
    ensures 2 <= LoopDepth(colors) <= 33
    ensures LoopDepth(colors) % 32 == Log2(colors)
  {
    Log2OfInt(colors);
  }

  /** The loop stops at the first distance congruent to the logarithm. */
  lemma LoopExit(colors: int, depth: int)
    requires 1 <= colors <= INT_MAX
    requires 2 <= depth <= LoopDepth(colors) && depth % 32 == Log2(colors)
    ensures depth == LoopDepth(colors)
  {
    LoopDepthRange(colors);
  }

  lemma FewColors(colors: int)
    requires colors >= 1
    ensures colors >= 4 <==> Log2(colors) >= 2
  {
    if Log2(colors) >= 2 {
      Pow2Monotone(2, Log2(colors));
    } else if Log2(colors) == 1 {
      assert Pow2(1) == 2;
    }
  }

  // ---------------------------------------------------------------------
  // The agent

  /** The `utme` value as `trackEvent` assembles it: each text encoded by
      the encoding loop, the label and the value only when present. */
  method BuildEventData(cs: Charset, category: string, action: string, optLabel: Option<string>,
                        optValue: int32) returns (data: string)
    ensures data == EventData(cs, category, action, optLabel, optValue)
  {
    var c := EncodeString(cs, category);
    var a := EncodeString(cs, action);
    var labelPart := "";
    if optLabel.Some? {
      var l := EncodeString(cs, optLabel.value);
      labelPart := "*" + l;
    }
    var valuePart := "";
    if optValue > -1 {
      valuePart := "(" + IntToString(optValue) + ")";
    }
    data := "5(" + c + "*" + a + labelPart + ")" + valuePart;
  }

  /** The dispatch cursor is sound: the index is within the snapshot, the
      snapshot's ids are distinct, and every record not yet sent is still
      in the store. */
  ghost predicate CursorValid(snapshot: seq<EventRecord>, index: nat, stored: seq<EventRecord>) {
    && index <= |snapshot|
    && UniqueIds(snapshot)
    && forall j :: index <= j < |snapshot| ==> snapshot[j] in stored
  }

  /** The session `initSessionData` starts from what `readSessionData`
      returned: that session advanced to `now`, or a new one when nothing
      could be read. */
  function StartedSession(read: Option<SessionRecord>, now: int64, randomUserId: int32): (r: SessionRecord)
    requires 0 <= randomUserId < USER_ID_BOUND
    ensures read.None? ==>
              && r.firstTimestamp == now && r.prevTimestamp == now
              && r.visits == 1 && r.userId == randomUserId
    ensures read.Some? ==>
              && r.firstTimestamp == read.value.firstTimestamp
              && r.prevTimestamp == read.value.currTimestamp
              && r.visits == Wrap32(read.value.visits + 1)
              && r.userId == read.value.userId
    ensures r.currTimestamp == now
  {
    if read.Some? then Advance(read.value, now) else NewSession(now, randomUserId)
  }

  /** Start-up keeps the session invariant as long as the clock has not gone
      back and the visit counter has room. */
  lemma StartedSessionWellFormed(read: Option<SessionRecord>, now: int64, randomUserId: int32)
    requires 0 <= randomUserId < USER_ID_BOUND
    requires read.Some? ==> WellFormed(read.value) && read.value.currTimestamp <= now && read.value.visits < INT_MAX
    ensures WellFormed(StartedSession(read, now, randomUserId))
  {
    if read.Some? {
      AdvanceKeepsWellFormed(read.value, now);
    }
  }

  /** The store after `initSessionData`: the events untouched, and, when
      the save works, the session that was read overwritten in place with
      the started one, or the started session appended as a new record
      when nothing was read, even if the store already holds sessions. */
  twostate predicate StartedUp(store: EventStore, new session: SessionData, clockMillis: int64,
                               randomUserId: int32, readOk: bool, saveOk: bool)
    requires 0 <= randomUserId < USER_ID_BOUND
    reads store, session
  {
    var read := FirstSession(readOk, old(store.sessions));
    && session.Value() == StartedSession(read, MillisToSeconds(clockMillis), randomUserId)
    && store.events == old(store.events) && store.nextId == old(store.nextId)
    && store.sessions == (
         if !saveOk then old(store.sessions)
         else if read.Some? then old(store.sessions)[0 := SessionEntry(old(store.sessions)[0].id, session.Value())]
         else old(store.sessions) + [SessionEntry(old(store.nextSessionId), session.Value())])
  }

  /** `initSessionData`: the session object the agent keeps, saved back to
      the store. `readOk` and `saveOk` say whether the read and the save
      succeed. */
  method InitSessionData(store: EventStore, clockMillis: int64, randomUserId: int32,
                         readOk: bool, saveOk: bool) returns (session: SessionData)
    requires store.Valid() && 0 <= randomUserId < USER_ID_BOUND
    modifies store
    ensures fresh(session) && store.Valid()
    ensures StartedUp(store, session, clockMillis, randomUserId, readOk, saveOk)
  {
    ghost var read := FirstSession(readOk, store.sessions);
    var data := store.ReadSessionData(readOk);
    var now := MillisToSeconds(clockMillis);
    if data == null {
      data := new SessionData();
      data.SetCurrTimestamp(now);
      data.SetPrevTimestamp(now);
      data.SetFirstTimestamp(now);
      data.SetVisits(1);
      data.SetUserId(randomUserId);
      RecordsEqualByFields(data.Value(), NewSession(now, randomUserId));
    } else {
      ghost var stored := data.Value();
      data.SetPrevTimestamp(data.currTimestamp);
      data.SetCurrTimestamp(now);
      data.SetVisits(Wrap32(data.visits + 1));
      RecordsEqualByFields(data.Value(), Advance(stored, now));
    }
    store.SaveSession(data, saveOk);
    if saveOk && read.Some? {
      SetFirstRecord(old(store.sessions), data.Value());
    }
    session := data;
  }

  /** Three start-ups over one store, the second of which fails to read but
      saves: that run mints a new session and inserts it as a second
      record, and the third start-up, which reads the first record again,
      continues the first run's session; the second run's session is never
      read back. */
  method RestartAfterFailedRead(clock1: int64, clock2: int64, clock3: int64,
                                user1: int32, user2: int32, user3: int32)
    returns (first: SessionRecord, second: SessionRecord, third: SessionRecord, records: nat)
    requires 0 <= user1 < USER_ID_BOUND && 0 <= user2 < USER_ID_BOUND && 0 <= user3 < USER_ID_BOUND
    ensures first == NewSession(MillisToSeconds(clock1), user1)
    ensures second == NewSession(MillisToSeconds(clock2), user2)
    ensures records == 2
    ensures third == Advance(first, MillisToSeconds(clock3))
  {
    var store := new EventStore();
    var s1 := InitSessionData(store, clock1, user1, true, true);
    first := s1.Value();
    var s2 := InitSessionData(store, clock2, user2, false, true);
    second := s2.Value();
    records := |store.sessions|;
    var s3 := InitSessionData(store, clock3, user3, true, true);
    third := s3.Value();
  }

  class GoogleAnalytics {
    const accountId: string
    const screenWidth: int32
    const screenHeight: int32
    const colorDepth: int32
    /** The system properties, which `System.getProperty` reads. */
    const properties: map<string, string>
    /** The platform's default charset, which `String.getBytes` uses. */
    const charset: Charset
    const userAgent: string
    const locale: Option<string>
    const hostname: Option<string>
    /** The persistent store behind `AnalyticsDataPersistenceUtils`. */
    const store: EventStore
    /** The session started with the agent; its fields are only read. */
    const session: SessionData

    var rootPath: Option<string>
    var immediate: bool
    var currentEventSet: Option<seq<EventRecord>>
    var processedEventIndex: nat
    /** Every request made, with the status the collector answered. */
    ghost var sent: seq<(string, int)>
    /** The session record the agent started with. */
    ghost const startSession: SessionRecord
    /** The root path this agent renders, once it is built. */
    ghost const renderedRoot: string

    ghost predicate Valid()
      reads this, store, session
    {
      && store.Valid()
      && session.Value() == startSession
      && (currentEventSet.None? ==> processedEventIndex == 0)
      && (currentEventSet.Some? ==> CursorValid(currentEventSet.value, processedEventIndex, store.events))
      && (rootPath.Some? ==> rootPath.value == renderedRoot)
    }

    function Config(): RootConfig {
      RootConfig(Property(properties, ENCODING_KEY), screenWidth, screenHeight,
                 colorDepth, hostname, locale, accountId)
    }

    /** The rendered root path is the one built from this agent's
        configuration and the session it started with. */
    ghost predicate RootPathSound() {
      renderedRoot == RootPath(Config(), Cookie(charset, startSession))
    }

    /** The private constructor: the configuration, the system properties
        and then the session start-up. */
    constructor (accountId: string, screenWidth: int32, screenHeight: int32, colorDepth: int32,
                 properties: map<string, string>, charset: Charset, store: EventStore,
                 clockMillis: int64, randomUserId: int32, readOk: bool, saveOk: bool)
      requires store.Valid() && 0 <= randomUserId < USER_ID_BOUND
      modifies store
      ensures Valid() && RootPathSound() && fresh(session)
      ensures this.accountId == accountId && this.screenWidth == screenWidth
      ensures this.screenHeight == screenHeight && this.colorDepth == colorDepth
      ensures this.properties == properties && this.charset == charset && this.store == store
      ensures locale == Property(properties, LOCALE_KEY)
      ensures hostname == Property(properties, HOSTNAME_KEY)
      ensures userAgent == UserAgent(properties)
      ensures !immediate && rootPath == None && currentEventSet == None && processedEventIndex == 0 && sent == []
      ensures StartedUp(store, session, clockMillis, randomUserId, readOk, saveOk)
    {
      this.immediate := false;
      this.accountId := accountId;
      this.screenWidth := screenWidth;
      this.screenHeight := screenHeight;
      this.colorDepth := colorDepth;
      this.properties := properties;
      this.charset := charset;
      this.store := store;
      // initFromSytemProperties
      this.locale := Property(properties, LOCALE_KEY);
      this.hostname := Property(properties, HOSTNAME_KEY);
      this.userAgent := UserAgent(properties);
      this.rootPath := None;
      this.currentEventSet := None;
      this.processedEventIndex := 0;
      this.sent := [];
      var data := InitSessionData(store, clockMillis, randomUserId, readOk, saveOk);
      this.session := data;
      this.startSession := data.Value();
      this.renderedRoot := RootPath(
        RootConfig(Property(properties, ENCODING_KEY), screenWidth, screenHeight,
                   colorDepth, Property(properties, HOSTNAME_KEY),
                   Property(properties, LOCALE_KEY), accountId),
        Cookie(charset, data.Value()));
    }

    /** `getCookie`. */
    method GetCookie() returns (cookie: string)
      ensures cookie == Cookie(charset, session.Value())
    {
      cookie := EncodeString(charset, CookieText(session.Value()));
    }

    /** `getRootPath`: built on the first call, then returned unchanged. */
    method GetRootPath() returns (path: string)
      requires Valid() && RootPathSound()
      modifies this`rootPath
      ensures Valid()
      ensures path == renderedRoot && rootPath == Some(path)
      ensures old(rootPath).Some? ==> path == old(rootPath).value
    {
      if rootPath.None? {
        var cookie := GetCookie();
        rootPath := Some(RootPath(Config(), cookie));
      }
      path := rootPath.value;
    }

    /** `makeRequest`: one request; it succeeds exactly when the collector
        answers 200. */
    method MakeRequest(path: string, status: int) returns (ok: bool)
      modifies this`sent
      ensures ok <==> status == HTTP_OK
      ensures sent == old(sent) + [(path, status)]
    {
      sent := sent + [(path, status)];
      ok := status == HTTP_OK;
    }

    /** `loadEventSet`: a fresh snapshot of the store, or null when the
        find fails, and the cursor at 0. */
    method LoadEventSet(findOk: bool)
      requires Valid()
      modifies this`currentEventSet, this`processedEventIndex
      ensures Valid()
      ensures currentEventSet == (if findOk then Some(store.events) else None)
      ensures processedEventIndex == 0
    {
      currentEventSet := store.Find(findOk);
      processedEventIndex := 0;
    }

    /** The routing of a finished beacon by the mode: in immediate mode one
        request whose failure is ignored, with the queue untouched;
        otherwise one more stored record when the save works and a cursor
        reset at index 0 to a fresh snapshot when the find works, with
        nothing sent. */
    twostate predicate Routed(path: string, status: int, saveOk: bool, findOk: bool)
      reads this, store
    {
      && immediate == old(immediate)
      && store.sessions == old(store.sessions) && store.nextSessionId == old(store.nextSessionId)
      && (old(immediate) ==>
            && sent == old(sent) + [(path, status)]
            && store.events == old(store.events) && store.nextId == old(store.nextId)
            && currentEventSet == old(currentEventSet)
            && processedEventIndex == old(processedEventIndex))
      && (!old(immediate) ==>
            && sent == old(sent)
            && (saveOk ==>
                  && store.events == old(store.events) + [EventRecord(old(store.nextId), path)]
                  && store.nextId == old(store.nextId) + 1)
            && (!saveOk ==> store.events == old(store.events) && store.nextId == old(store.nextId))
            && currentEventSet == (if findOk then Some(store.events) else None)
            && processedEventIndex == 0)
    }

    /** The tail that `trackPageView` and `trackEvent` share. `saveOk` and
        `findOk` say whether the save and the reload's find succeed. */
    method Route(path: string, status: int, saveOk: bool, findOk: bool)
      requires Valid()
      modifies this, store
      ensures Valid() && Routed(path, status, saveOk, findOk) && rootPath == old(rootPath)
    {
      if immediate {
        var _ := MakeRequest(path, status);
      } else {
        store.SaveEvent(path, saveOk);
        LoadEventSet(findOk);
      }
    }

    /** `trackPageView`. A null url is ignored; an empty one fails on
        `charAt(0)`; otherwise the page-view beacon is routed. */
    method TrackPageView(url: Option<string>, status: int, saveOk: bool, findOk: bool)
      returns (thrown: Option<JavaException>)
      requires Valid() && RootPathSound()
      modifies this, store
      ensures Valid()
      ensures url.None? ==> thrown == None && unchanged(this, store)
      ensures url == Some([]) ==> thrown == Some(StringIndexOutOfBounds) && unchanged(this, store)
      ensures url.Some? && url.value != [] ==>
                && thrown == None
                && rootPath == Some(renderedRoot)
                && Routed(PageViewBeacon(charset, renderedRoot, url.value), status, saveOk, findOk)
    {
      if url.None? {
        return None;
      }
      var u := url.value;
      if |u| == 0 {
        return Some(StringIndexOutOfBounds);
      }
      if u[0] != '/' {
        u := "/" + u;
      }
      var root := GetRootPath();
      var encoded := EncodeString(charset, u);
      var path := root + "&utmp=" + encoded;
      Route(path, status, saveOk, findOk);
      thrown := None;
    }

    /** `trackEvent`. The root path is built first; a null category or
        action then fails inside `encode`, leaving only the root path
        built; otherwise the event beacon is routed. */
    method TrackEvent(category: Option<string>, action: Option<string>, optLabel: Option<string>,
                      optValue: int32, status: int, saveOk: bool, findOk: bool)
      returns (thrown: Option<JavaException>)
      requires Valid() && RootPathSound()
      modifies this, store
      ensures Valid()
      ensures rootPath == Some(renderedRoot)
      ensures category.None? || action.None? ==>
                && thrown == Some(NullPointer)
                && unchanged(store)
                && sent == old(sent) && immediate == old(immediate)
                && currentEventSet == old(currentEventSet)
                && processedEventIndex == old(processedEventIndex)
      ensures category.Some? && action.Some? ==>
                && thrown == None
                && Routed(EventBeacon(charset, renderedRoot, category.value, action.value, optLabel, optValue),
                          status, saveOk, findOk)
    {
      var root := GetRootPath();
      if category.None? || action.None? {
        return Some(NullPointer);
      }
      var data := BuildEventData(charset, category.value, action.value, optLabel, optValue);
      Route(root + "&utmt=event" + "&utme=" + data, status, saveOk, findOk);
      thrown := None;
    }

    /** `isImmediate`. */
    method IsImmediate() returns (r: bool)
      ensures r == immediate
    {
      r := immediate;
    }

    /** `setImmediate`: changes the mode and nothing else. */
    method SetImmediate(flag: bool)
      modifies this`immediate
      ensures immediate == flag
      ensures old(Valid()) ==> Valid()
    {
      immediate := flag;
    }

    /** The snapshot `readAndDispatch` works on: the current one, or a new
        one loaded when there is none and the find works. */
    ghost function LoadedSnapshot(findOk: bool): Option<seq<EventRecord>>
      reads this, store
    {
      if currentEventSet.Some? then currentEventSet
      else if findOk then Some(store.events)
      else None
    }

    /** `readAndDispatch`. With no snapshot, or an empty one, or the cursor
        past its end, nothing is sent and the result is false. Otherwise the
        record at the cursor is sent; on failure the result is false and
        nothing else changes; on success the cursor advances by one, the
        record is deleted from the store, and the result says whether the
        cursor is still inside the snapshot. `findOk` and `deleteOk` say
        whether the find of a reload and the delete succeed; a failed
        delete leaves the sent record stored. */
    method ReadAndDispatch(status: int, findOk: bool, deleteOk: bool) returns (more: bool)
      requires Valid()
      modifies this, store
      ensures Valid()
      ensures rootPath == old(rootPath) && immediate == old(immediate)
      ensures store.sessions == old(store.sessions) && store.nextSessionId == old(store.nextSessionId)
      ensures store.nextId == old(store.nextId)
      ensures currentEventSet == old(LoadedSnapshot(findOk))
      ensures var snap := old(LoadedSnapshot(findOk));
              var index := old(processedEventIndex);
              if snap.None? || |snap.value| == 0 || index >= |snap.value| then
                && !more && sent == old(sent) && store.events == old(store.events)
                && processedEventIndex == index
              else
                var record := snap.value[index];
                && sent == old(sent) + [(record.url, status)]
                && (status != HTTP_OK ==>
                      && !more && store.events == old(store.events) && processedEventIndex == index)
                && (status == HTTP_OK ==>
                      && more == (index + 1 < |snap.value|)
                      && processedEventIndex == index + 1
                      && store.events == (if deleteOk then RemoveId(old(store.events), record.id) else old(store.events)))
    {
      if currentEventSet.None? {
        LoadEventSet(findOk);
      }
      if currentEventSet.None? || |currentEventSet.value| < 1 {
        return false;
      }
      var snapshot := currentEventSet.value;
      if processedEventIndex >= |snapshot| {
        // ObjectSet.get fails past the end; the failure is swallowed
        return false;
      }
      var data := snapshot[processedEventIndex];
      var ok := MakeRequest(data.url, status);
      if !ok {
        return false;
      }
      DispatchDeletesOne(snapshot, processedEventIndex, store.events);
      processedEventIndex := processedEventIndex + 1;
      store.Delete(data, deleteOk);
      more := |snapshot| > processedEventIndex;
    }
  }

  /** A successful dispatch deletes the record it sent, and only it: the
      store shrinks by exactly one. */
  lemma DispatchDeletesOne(snapshot: seq<EventRecord>, index: nat, stored: seq<EventRecord>)
    requires CursorValid(snapshot, index, stored) && UniqueIds(stored) && index < |snapshot|
    ensures |RemoveId(stored, snapshot[index].id)| == |stored| - 1
    ensures CursorValid(snapshot, index + 1, RemoveId(stored, snapshot[index].id))
  {
    RemoveIdCount(stored, snapshot[index].id);
  }

  /** When the store holds exactly the unsent part of the snapshot, a
      successful dispatch keeps it so: the record sent is the oldest
      stored one, first in, first out. */
  lemma {:induction false} DispatchIsFifo(snapshot: seq<EventRecord>, index: nat)
    requires UniqueIds(snapshot) && index < |snapshot|
    ensures RemoveId(snapshot[index..], snapshot[index].id) == snapshot[index + 1..]
  {
    var s := snapshot[index..];
    assert UniqueIds(s);
    assert forall e :: e in s[1..] ==> e.id != s[0].id;
    RemoveIdCount(s[1..], s[0].id);
    assert s[1..] == snapshot[index + 1..];
  }

  // ---------------------------------------------------------------------
  // The process-wide instance

  /** The static field `INSTANCE` and the store every instance uses. */
  class Registry {
    var instance: GoogleAnalytics?
    const store: EventStore

    ghost predicate Valid()
      reads this, store, if instance != null then {instance, instance.session} else {}
    {
      && store.Valid()
      && (instance != null ==> instance.store == store && instance.Valid() && instance.RootPathSound())
    }

    constructor (store: EventStore)
      requires store.Valid()
      ensures Valid() && instance == null && this.store == store
    {
      this.store := store;
      instance := null;
    }

    /** `getInstance`. Once an instance exists it is returned whatever the
        arguments; before that a null account id, then a null MIDlet, is
        rejected, and otherwise the instance is created with the canvas
        size and the colour depth of the display. */
    method GetInstance(webPropertyId: Option<string>, midlet: Option<Midlet>,
                       properties: map<string, string>, charset: Charset,
                       clockMillis: int64, randomUserId: int32, readOk: bool, saveOk: bool)
      returns (r: Result<GoogleAnalytics, JavaException>)
      requires Valid()
      requires instance == null && webPropertyId.Some? && midlet.Some? ==> midlet.value.numColors >= 1
      requires 0 <= randomUserId < USER_ID_BOUND
      modifies this, store
      ensures Valid()
      ensures old(instance) != null ==> r == Success(old(instance)) && instance == old(instance) && unchanged(store)
      ensures old(instance) == null && webPropertyId.None? ==>
                && r == Failure(IllegalArgument(MISSING_ACCOUNT_ID))
                && instance == null && unchanged(store)
      ensures old(instance) == null && webPropertyId.Some? && midlet.None? ==>
                && r == Failure(IllegalArgument(MISSING_MIDLET))
                && instance == null && unchanged(store)
      ensures old(instance) == null && webPropertyId.Some? && midlet.Some? ==>
                && r == Success(instance) && instance != null && fresh(instance)
                && instance.accountId == webPropertyId.value
                && instance.screenWidth == midlet.value.canvasWidth
                && instance.screenHeight == midlet.value.canvasHeight
                && instance.colorDepth == LoopDepth(midlet.value.numColors)
                && instance.properties == properties && instance.charset == charset
                && !instance.immediate && instance.rootPath == None
                && instance.currentEventSet == None && instance.sent == []
                && StartedUp(store, instance.session, clockMillis, randomUserId, readOk, saveOk)
    {
      if instance == null {
        if webPropertyId.None? {
          return Failure(IllegalArgument(MISSING_ACCOUNT_ID));
        }
        if midlet.None? {
          return Failure(IllegalArgument(MISSING_MIDLET));
        }
        var m := midlet.value;
        var colorDepth := ColorDepth(m.numColors);
        instance := new GoogleAnalytics(webPropertyId.value, m.canvasWidth, m.canvasHeight, colorDepth,
                                        properties, charset, store, clockMillis, randomUserId, readOk, saveOk);
      }
      r := Success(instance);
    }
  }
}
