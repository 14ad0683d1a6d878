/** The beacon URLs: the root path (collector address, device parameters,
    account id and cookie) that every beacon starts with, and the page-view
    and event parameters appended to it. The collector's side of the event
    parameter is given as a parser, so that the lemmas can say what a
    beacon carries. */
module Beacon {
  import opened JavaLang
  import opened Encoder

  const COLLECTOR: string := "http://www.google-analytics.com/__utm.gif"

  /** What the root path renders, as `getRootPath` reads it from the agent. */
  datatype RootConfig = RootConfig(
    encoding: Option<string>,
    screenWidth: int32,
    screenHeight: int32,
    colorDepth: int,
    hostname: Option<string>,
    locale: Option<string>,
    accountId: string)

  /** The root path built by `getRootPath`: the collector address, the
      device and account parameters and, last, the cookie. */
  function RootPath(c: RootConfig, cookie: string): (p: string)
    ensures |p| >= |COLLECTOR| + 7 + |cookie|
    ensures p[..|COLLECTOR|] == COLLECTOR
    ensures p[|p| - |cookie| - 7..] == "&utmcc=" + cookie
  {
    var pieces := [
      COLLECTOR,
      "?utmwv=4.4ma",
      "&utmn=-1",
      "&utmcs=", NullableText(c.encoding),
      "&utmsr=", IntToString(c.screenWidth), "x", IntToString(c.screenHeight),
      "&utmsc=", IntToString(c.colorDepth), "-bit",
      "&utmhn=", NullableText(c.hostname),
      "&utmul=", NullableText(c.locale),
      "&utmac=", c.accountId];
    assert Concat(pieces + ["&utmcc=", cookie]) == COLLECTOR + Concat(pieces[1..]) + ("&utmcc=" + cookie) by {
      ConcatAppend(pieces, ["&utmcc=", cookie]);
      assert Concat(["&utmcc=", cookie]) == "&utmcc=" + Concat([cookie]);
    }
    Concat(pieces + ["&utmcc=", cookie])
  }

  /** The cookie is the only part of a root path that depends on the cookie:
      two root paths of one configuration differ exactly when their cookies
      do. */
  lemma RootPathEndsWithCookie(c: RootConfig, cookie: string, other: string)
    ensures RootPath(c, cookie) == RootPath(c, other) <==> cookie == other
  {
    var m := RootPathSplit(c, cookie);
    var m' := RootPathSplit(c, other);
    assert m == m';
    var p, q := RootPath(c, cookie), RootPath(c, other);
    var x := COLLECTOR + m + "&utmcc=";
    assert p == x + cookie && q == x + other;
    assert p == COLLECTOR + (m + "&utmcc=" + cookie);
    if p == q {
      assert cookie == p[|x|..] == other;
    }
  }

  /** The root path as the collector address, the parameters in between,
      which depend on the configuration alone, and the cookie parameter. */
  lemma RootPathSplit(c: RootConfig, cookie: string) returns (middle: string)
    ensures middle == Concat([
      "?utmwv=4.4ma",
      "&utmn=-1",
      "&utmcs=", NullableText(c.encoding),
      "&utmsr=", IntToString(c.screenWidth), "x", IntToString(c.screenHeight),
      "&utmsc=", IntToString(c.colorDepth), "-bit",
      "&utmhn=", NullableText(c.hostname),
      "&utmul=", NullableText(c.locale),
      "&utmac=", c.accountId])
    ensures RootPath(c, cookie) == COLLECTOR + middle + ("&utmcc=" + cookie)
  {
    var pieces := [
      COLLECTOR,
      "?utmwv=4.4ma",
      "&utmn=-1",
      "&utmcs=", NullableText(c.encoding),
      "&utmsr=", IntToString(c.screenWidth), "x", IntToString(c.screenHeight),
      "&utmsc=", IntToString(c.colorDepth), "-bit",
      "&utmhn=", NullableText(c.hostname),
      "&utmul=", NullableText(c.locale),
      "&utmac=", c.accountId];
    ConcatAppend(pieces, ["&utmcc=", cookie]);
    assert Concat(["&utmcc=", cookie]) == "&utmcc=" + Concat([cookie]);
    middle := Concat(pieces[1..]);
  }

  // ---------------------------------------------------------------------
  // Page views

  /** The page path with a leading `/`: the url itself when it already
      starts with one, otherwise the url behind an added `/`. */
  function LeadingSlash(url: string): (p: string)
    requires |url| > 0
    ensures |p| > 0 && p[0] == '/'
    ensures p == url || p == "/" + url
    ensures p == url <==> url[0] == '/'
  {
    if url[0] != '/' then "/" + url else url
  }

  /** Adding the leading `/` twice adds it once. */
  lemma LeadingSlashIdempotent(url: string)
    requires |url| > 0
    ensures LeadingSlash(LeadingSlash(url)) == LeadingSlash(url)
  {
  }

  /** The beacon `trackPageView` sends or queues. */
  function PageViewBeacon(cs: Charset, root: string, url: string): (b: string)
    requires |url| > 0
    ensures |b| >= |root| + 6 && b[..|root| + 6] == root + "&utmp="
  {
    root + "&utmp=" + Encode(cs, LeadingSlash(url))
  }

  /** A page-view beacon is the root path, `&utmp=` and a value that the
      collector decodes to the bytes of the page path with its leading
      `/`. */
  lemma PageViewBeaconDecodes(cs: Charset, root: string, url: string)
    requires AsciiCompatible(cs) && |url| > 0
    ensures var b := PageViewBeacon(cs, root, url);
      && |b| >= |root| + 6
      && b[..|root| + 6] == root + "&utmp="
      && Decode(b[|root| + 6..]) == Some(Bytes(cs, LeadingSlash(url)))
  {
    var b := PageViewBeacon(cs, root, url);
    assert b == (root + "&utmp=") + Encode(cs, LeadingSlash(url));
    DecodeEncode(cs, LeadingSlash(url));
  }

  // ---------------------------------------------------------------------
  // Events

  /** The `utme` value of an event: `5(category*action[*optLabel])` followed by
      `(value)` when the value is not negative. */
  function EventData(cs: Charset, category: string, action: string, optLabel: Option<string>, value: int32): (d: string)
    ensures |d| >= 4 + |Encode(cs, category)| + |Encode(cs, action)|
    ensures d[..2] == "5(" && d[|d| - 1] == ')'
  {
    var c, a := Encode(cs, category), Encode(cs, action);
    var l := if optLabel.Some? then "*" + Encode(cs, optLabel.value) else "";
    var v := if value > -1 then "(" + IntToString(value) + ")" else "";
    EventDataShape(c, a, l, v);
    "5(" + c + "*" + a + l + ")" + v
  }

  /** The shape of a `utme` value, whatever its parts. */
  lemma EventDataShape(c: string, a: string, l: string, v: string)
    requires v == [] || v[|v| - 1] == ')'
    ensures var d := "5(" + c + "*" + a + l + ")" + v;
      && |d| >= 4 + |c| + |a| && d[..2] == "5(" && d[|d| - 1] == ')'
  {
  }

  /** The beacon `trackEvent` sends or queues. */
  function EventBeacon(cs: Charset, root: string, category: string, action: string, optLabel: Option<string>, value: int32): (b: string)
    ensures |b| >= |root| + 21 && b[..|root| + 17] == root + "&utmt=event&utme="
    ensures b[|b| - 1] == ')'
  {
    var d := EventData(cs, category, action, optLabel, value);
    EventBeaconShape(root, d);
    root + "&utmt=event" + "&utme=" + d
  }

  /** The shape of an event beacon, whatever its root and `utme` value. */
  lemma EventBeaconShape(root: string, d: string)
    requires |d| >= 4 && d[|d| - 1] == ')'
    ensures var b := root + "&utmt=event" + "&utme=" + d;
      && |b| >= |root| + 21 && b[..|root| + 17] == root + "&utmt=event&utme=" && b[|b| - 1] == ')'
  {
    var head := root + "&utmt=event&utme=";
    assert root + "&utmt=event" + "&utme=" == head;
    assert (head + d)[..|head|] == head;
  }

  /** The first position of `c` in `s`. */
  function IndexOf(s: string, c: char): (r: Option<nat>)
    ensures r.Some? ==> r.value < |s| && s[r.value] == c && c !in s[..r.value]
    ensures r.None? ==> c !in s
  {
    if s == [] then None
    else if s[0] == c then Some(0)
    else
      match IndexOf(s[1..], c)
      case None => None
      case Some(k) =>
        assert s[..k + 1] == [s[0]] + s[1..][..k];
        Some(k + 1)
  }

  /** `s` cut at every `sep`. */
  function Split(s: string, sep: char): (r: seq<string>)
    ensures |r| >= 1
    decreases |s|
  {
    match IndexOf(s, sep)
    case None => [s]
    case Some(k) => [s[..k]] + Split(s[k + 1..], sep)
  }

  lemma IndexOfAfter(a: string, c: char, b: string)
    requires c !in a
    ensures IndexOf(a + [c] + b, c) == Some(|a|)
  {
    var s := a + [c] + b;
    assert s[|a|] == c;
    assert forall k :: 0 <= k < |a| ==> s[k] == a[k];
    assert forall k :: |a| < k <= |s| ==> s[..k][|a|] == c;
  }

  lemma SplitAfter(a: string, sep: char, b: string)
    requires sep !in a
    ensures Split(a + [sep] + b, sep) == [a] + Split(b, sep)
  {
    var s := a + [sep] + b;
    IndexOfAfter(a, sep, b);
    assert s[..|a|] == a && s[|a| + 1..] == b;
  }

  /** What the collector reads from a `utme` value: the `*`-separated
      fields inside `5(...)` and the optional `(value)` after it. */
  datatype EventFields = EventFields(fields: seq<string>, value: Option<nat>)

  predicate AllDigits(s: string) {
    forall i :: 0 <= i < |s| ==> IsDigit(s[i])
  }

  function ParseValue(rest: string): Option<Option<nat>> {
    if rest == [] then Some(None)
    else if |rest| >= 3 && rest[0] == '(' && rest[|rest| - 1] == ')' && AllDigits(rest[1..|rest| - 1])
    then Some(Some(ParseNat(rest[1..|rest| - 1])))
    else None
  }

  function ParseEventData(t: string): Option<EventFields> {
    if |t| < 2 || t[..2] != "5(" then None
    else
      var body := t[2..];
      match IndexOf(body, ')')
      case None => None
      case Some(k) =>
        match ParseValue(body[k + 1..])
        case None => None
        case Some(v) => Some(EventFields(Split(body[..k], '*'), v))
  }

  /** An encoded string never holds `)`, and holds `*` only where the
      input did. */
  lemma {:induction false} EncodeKeepsSeparators(cs: Charset, s: string)
    ensures ')' !in Encode(cs, s)
    ensures '*' !in s ==> '*' !in Encode(cs, s)
  {
    if s != [] {
      EncodeKeepsSeparators(cs, s[1..]);
      var head := EncodeChar(cs, s[0]);
      if !IsUnreserved(s[0]) && s[0] != ' ' {
        PercentGroupsAlphabet(cs(s[0]));
      }
      assert ')' !in head;
      if s[0] != '*' {
        assert '*' !in head;
      }
      assert Encode(cs, s) == head + Encode(cs, s[1..]);
    }
  }

  /** The fields the event's `utme` value carries, encoded. */
  function EncodedFields(cs: Charset, category: string, action: string, optLabel: Option<string>): seq<string> {
    [Encode(cs, category), Encode(cs, action)] + (if optLabel.Some? then [Encode(cs, optLabel.value)] else [])
  }

  lemma ParseEventDataShape(inner: string, tail: string, v: Option<nat>)
    requires ')' !in inner && ParseValue(tail) == Some(v)
    ensures ParseEventData("5(" + inner + ")" + tail) == Some(EventFields(Split(inner, '*'), v))
  {
    var t := "5(" + inner + ")" + tail;
    assert t[..2] == "5(";
    assert t[2..] == inner + [')'] + tail;
    IndexOfAfter(inner, ')', tail);
    assert (inner + [')'] + tail)[..|inner|] == inner;
    assert (inner + [')'] + tail)[|inner| + 1..] == tail;
  }

  /** The optional `(value)` part is read back as the value exactly when
      the value is not negative. */
  lemma ParseValueOf(value: int32)
    ensures ParseValue(if value > -1 then "(" + IntToString(value) + ")" else "")
      == Some(if value > -1 then Some(value as nat) else None)
  {
    if value > -1 {
      var tail := "(" + IntToString(value) + ")";
      assert tail[1..|tail| - 1] == IntToString(value);
      ParseNatToString(value);
    }
  }

  /** The text between `5(` and `)`. */
  function EventFieldsText(cs: Charset, category: string, action: string, optLabel: Option<string>): string {
    Encode(cs, category) + "*" + Encode(cs, action)
    + (if optLabel.Some? then "*" + Encode(cs, optLabel.value) else "")
  }

  lemma SplitWithout(s: string, sep: char)
    requires sep !in s
    ensures Split(s, sep) == [s]
  {
  }

  lemma EventFieldsTextClosed(cs: Charset, category: string, action: string, optLabel: Option<string>)
    ensures ')' !in EventFieldsText(cs, category, action, optLabel)
  {
    EncodeKeepsSeparators(cs, category);
    EncodeKeepsSeparators(cs, action);
    if optLabel.Some? {
      EncodeKeepsSeparators(cs, optLabel.value);
    }
  }

  lemma SplitTwo(c: string, a: string)
    requires '*' !in c && '*' !in a
    ensures Split(c + ['*'] + a, '*') == [c, a]
  {
    SplitAfter(c, '*', a);
    SplitWithout(a, '*');
  }

  lemma SplitThree(c: string, a: string, l: string)
    requires '*' !in c && '*' !in a && '*' !in l
    ensures Split(c + ['*'] + (a + ['*'] + l), '*') == [c, a, l]
  {
    SplitAfter(c, '*', a + ['*'] + l);
    SplitTwo(a, l);
  }

  lemma EventFieldsTextPieces(cs: Charset, category: string, action: string, optLabel: Option<string>)
    ensures optLabel.Some? ==>
              EventFieldsText(cs, category, action, optLabel)
              == Encode(cs, category) + ['*'] + (Encode(cs, action) + ['*'] + Encode(cs, optLabel.value))
    ensures optLabel.None? ==>
              EventFieldsText(cs, category, action, optLabel) == Encode(cs, category) + ['*'] + Encode(cs, action)
  {
    if optLabel.Some? {
      ThreePieces(Encode(cs, category), Encode(cs, action), Encode(cs, optLabel.value));
    } else {
      TwoPieces(Encode(cs, category), Encode(cs, action));
    }
  }

  lemma TwoPieces(c: string, a: string)
    ensures c + "*" + a + "" == c + ['*'] + a
  {
  }

  lemma ThreePieces(c: string, a: string, l: string)
    ensures c + "*" + a + ("*" + l) == c + ['*'] + (a + ['*'] + l)
  {
  }

  lemma SplitEventFields(cs: Charset, category: string, action: string, optLabel: Option<string>)
    requires '*' !in category && '*' !in action && (optLabel.Some? ==> '*' !in optLabel.value)
    ensures Split(EventFieldsText(cs, category, action, optLabel), '*') == EncodedFields(cs, category, action, optLabel)
  {
    EventFieldsTextPieces(cs, category, action, optLabel);
    EncodeKeepsSeparators(cs, category);
    EncodeKeepsSeparators(cs, action);
    if optLabel.Some? {
      EncodeKeepsSeparators(cs, optLabel.value);
      SplitThree(Encode(cs, category), Encode(cs, action), Encode(cs, optLabel.value));
    } else {
      SplitTwo(Encode(cs, category), Encode(cs, action));
    }
  }

  /** When no text field holds a `*`, the collector reads back from the
      `utme` value exactly the encoded category, action and (if given)
      label, and the value exactly when it is not negative. */
  lemma EventDataParses(cs: Charset, category: string, action: string, optLabel: Option<string>, value: int32)
    requires '*' !in category && '*' !in action && (optLabel.Some? ==> '*' !in optLabel.value)
    ensures ParseEventData(EventData(cs, category, action, optLabel, value))
      == Some(EventFields(EncodedFields(cs, category, action, optLabel), if value > -1 then Some(value as nat) else None))
  {
    var inner := EventFieldsText(cs, category, action, optLabel);
    var tail := if value > -1 then "(" + IntToString(value) + ")" else "";
    EventDataRegroup(Encode(cs, category), Encode(cs, action),
                     if optLabel.Some? then "*" + Encode(cs, optLabel.value) else "", tail);
    SplitEventFields(cs, category, action, optLabel);
    EventFieldsTextClosed(cs, category, action, optLabel);
    ParseValueOf(value);
    ParseEventDataShape(inner, tail, if value > -1 then Some(value as nat) else None);
  }

  lemma EventDataRegroup(c: string, a: string, l: string, t: string)
    ensures "5(" + c + "*" + a + l + ")" + t == "5(" + (c + "*" + a + l) + ")" + t
  {
  }

  /** When no text field holds a `*`, an event beacon is the root path,
      `&utmt=event&utme=` and a value from which the collector reads back
      the encoded category, action and (if given) label, and the value
      exactly when it is not negative. */
  lemma EventBeaconParses(cs: Charset, root: string, category: string, action: string, optLabel: Option<string>, value: int32)
    requires '*' !in category && '*' !in action && (optLabel.Some? ==> '*' !in optLabel.value)
    ensures var b := EventBeacon(cs, root, category, action, optLabel, value);
      && |b| >= |root| + 17
      && b[..|root| + 17] == root + "&utmt=event&utme="
      && ParseEventData(b[|root| + 17..])
         == Some(EventFields(EncodedFields(cs, category, action, optLabel), if value > -1 then Some(value as nat) else None))
  {
    var b := EventBeacon(cs, root, category, action, optLabel, value);
    var d := EventData(cs, category, action, optLabel, value);
    var head := root + "&utmt=event&utme=";
    assert b == head + d;
    assert b[|head|..] == d;
    EventDataParses(cs, category, action, optLabel, value);
  }

  /** The `*` separator is not escaped, so two different events can send
      the same beacon: `(a*b, c)` and `(a, b*c)` for any unreserved `a`, `b`
      and `c`. */
  lemma EventStarCollision(cs: Charset, root: string, a: string, b: string, c: string)
    requires AllUnreserved(a) && AllUnreserved(b) && AllUnreserved(c)
    ensures a + "*" + b != a
    ensures EventBeacon(cs, root, a + "*" + b, c, None, -1) == EventBeacon(cs, root, a, b + "*" + c, None, -1)
  {
    EventDataCollision(cs, a, b, c);
  }

  lemma EventDataCollision(cs: Charset, a: string, b: string, c: string)
    requires AllUnreserved(a) && AllUnreserved(b) && AllUnreserved(c)
    ensures EventData(cs, a + "*" + b, c, None, -1) == EventData(cs, a, b + "*" + c, None, -1)
  {
    StarJoinUnreserved(a, b);
    StarJoinUnreserved(b, c);
    PlainEventData(cs, a + "*" + b, c);
    PlainEventData(cs, a, b + "*" + c);
    StarRegroup(a, b, c);
  }

  lemma StarJoinUnreserved(a: string, b: string)
    requires AllUnreserved(a) && AllUnreserved(b)
    ensures AllUnreserved(a + "*" + b)
  {
    AllUnreservedAppend(a, "*");
    AllUnreservedAppend(a + "*", b);
  }

  lemma StarRegroup(a: string, b: string, c: string)
    ensures "5(" + (a + "*" + b) + "*" + c + ")" == "5(" + a + "*" + (b + "*" + c) + ")"
  {
  }

  /** An event with neither label nor value. */
  lemma PlainEventData(cs: Charset, category: string, action: string)
    ensures EventData(cs, category, action, None, -1) == "5(" + Encode(cs, category) + "*" + Encode(cs, action) + ")"
  {
    var c, a := Encode(cs, category), Encode(cs, action);
    assert "5(" + c + "*" + a + "" + ")" + "" == "5(" + c + "*" + a + ")";
  }
}
