/** The visitor session: the five-field record the agent persists, the
    mutable `SessionData` object that holds it, the way a session is minted
    or advanced at start-up, and the `__utma` cookie that renders it. */
module Session {
  import opened JavaLang
  import Encoder

  /** Exclusive upper bound of the random user id, `Random.nextInt(9999999)`. */
  const USER_ID_BOUND: int := 9999999

  /** The value held by a `SessionData` object. */
  datatype SessionRecord = SessionRecord(
    prevTimestamp: int64,
    currTimestamp: int64,
    firstTimestamp: int64,
    visits: int32,
    userId: int32)
  {
    /** What the getter of field `f` returns. */
    function Get(f: Field): (v: int)
      ensures f.Fits(v)
    {
      match f
      case UserId => userId
      case FirstTimestamp => firstTimestamp
      case PrevTimestamp => prevTimestamp
      case CurrTimestamp => currTimestamp
      case Visits => visits
    }

    /** The record after the setter of field `f` stored `v`: the getter of
        `f` now returns `v` and every other getter what it returned before. */
    function Set(f: Field, v: int): (r: SessionRecord)
      requires f.Fits(v)
      ensures r.Get(f) == v
      ensures forall g: Field :: g != f ==> r.Get(g) == Get(g)
    {
      match f
      case UserId => this.(userId := v)
      case FirstTimestamp => this.(firstTimestamp := v)
      case PrevTimestamp => this.(prevTimestamp := v)
      case CurrTimestamp => this.(currTimestamp := v)
      case Visits => this.(visits := v)
    }
  }

  /** The five fields of `SessionData`. */
  datatype Field = UserId | FirstTimestamp | PrevTimestamp | CurrTimestamp | Visits {
    /** Timestamps are `long`, visits and the user id `int`. */
    predicate Fits(v: int) {
      if this == UserId || this == Visits then INT_MIN <= v <= INT_MAX
      else LONG_MIN <= v <= LONG_MAX
    }
  }

  /** A record is determined by what its five getters return. */
  lemma {:induction false} RecordsEqualByFields(r: SessionRecord, s: SessionRecord)
    requires forall f: Field :: r.Get(f) == s.Get(f)
    ensures r == s
  {
    assert r.Get(UserId) == s.Get(UserId);
    assert r.Get(FirstTimestamp) == s.Get(FirstTimestamp);
    assert r.Get(PrevTimestamp) == s.Get(PrevTimestamp);
    assert r.Get(CurrTimestamp) == s.Get(CurrTimestamp);
    assert r.Get(Visits) == s.Get(Visits);
  }

  /** Setters of different fields commute. */
  lemma SettersCommute(r: SessionRecord, f: Field, v: int, g: Field, w: int)
    requires f != g && f.Fits(v) && g.Fits(w)
    ensures r.Set(f, v).Set(g, w) == r.Set(g, w).Set(f, v)
  {
    var a, b := r.Set(f, v).Set(g, w), r.Set(g, w).Set(f, v);
    forall h: Field ensures a.Get(h) == b.Get(h) {}
    RecordsEqualByFields(a, b);
  }

  /** Setting a field to the value it already has changes nothing, and a
      second set of the same field overrides the first. */
  lemma SetterIdempotence(r: SessionRecord, f: Field, v: int, w: int)
    requires f.Fits(v) && f.Fits(w)
    ensures r.Set(f, r.Get(f)) == r
    ensures r.Set(f, v).Set(f, w) == r.Set(f, w)
  {
    forall h: Field ensures r.Set(f, r.Get(f)).Get(h) == r.Get(h) {}
    RecordsEqualByFields(r.Set(f, r.Get(f)), r);
    forall h: Field ensures r.Set(f, v).Set(f, w).Get(h) == r.Set(f, w).Get(h) {}
    RecordsEqualByFields(r.Set(f, v).Set(f, w), r.Set(f, w));
  }

  /** `SessionData`: a persistable object whose five fields are changed one
      at a time through package-private setters. */
  class SessionData {
    var prevTimestamp: int64
    var currTimestamp: int64
    var firstTimestamp: int64
    var visits: int32
    var userId: int32
    /** The object id the persistence layer keeps in every persistable
        object: none for an object made with `new` and not yet saved, the
        id of its record once it is saved or loaded. */
    var storeId: Option<nat>

    /** The values the getters return. */
    function Value(): SessionRecord
      reads this
    {
      SessionRecord(prevTimestamp, currTimestamp, firstTimestamp, visits, userId)
    }

    /** The empty constructor: every field has Java's default value 0. */
    constructor ()
      ensures forall f: Field :: Value().Get(f) == 0
      ensures storeId == None
    {
      prevTimestamp, currTimestamp, firstTimestamp := 0, 0, 0;
      visits, userId := 0, 0;
      storeId := None;
    }

    method SetUserId(v: int32)
      modifies this`userId
      ensures Value() == old(Value()).Set(UserId, v)
    {
      userId := v;
    }

    method SetFirstTimestamp(v: int64)
      modifies this`firstTimestamp
      ensures Value() == old(Value()).Set(FirstTimestamp, v)
    {
      firstTimestamp := v;
    }

    method SetPrevTimestamp(v: int64)
      modifies this`prevTimestamp
      ensures Value() == old(Value()).Set(PrevTimestamp, v)
    {
      prevTimestamp := v;
    }

    method SetCurrTimestamp(v: int64)
      modifies this`currTimestamp
      ensures Value() == old(Value()).Set(CurrTimestamp, v)
    {
      currTimestamp := v;
    }

    method SetVisits(v: int32)
      modifies this`visits
      ensures Value() == old(Value()).Set(Visits, v)
    {
      visits := v;
    }
  }

  /** The session invariant: the timestamps are ordered, there has been at
      least one visit, and the user id came from the random draw. */
  predicate WellFormed(r: SessionRecord) {
    && r.firstTimestamp <= r.prevTimestamp <= r.currTimestamp
    && r.visits >= 1
    && 0 <= r.userId < USER_ID_BOUND
  }

  /** The record minted on the first start-up: all three timestamps are
      `now`, one visit, and the random user id. */
  function NewSession(now: int64, userId: int32): (r: SessionRecord)
    requires 0 <= userId < USER_ID_BOUND
    ensures WellFormed(r)
    ensures r.firstTimestamp == now && r.prevTimestamp == now && r.currTimestamp == now
    ensures r.visits == 1 && r.userId == userId
  {
    SessionRecord(now, now, now, 1, userId)
  }

  /** The record after a later start-up: the previous start becomes the
      previous timestamp, `now` the current one, and `visits + 1` is Java
      `int` arithmetic, so it wraps at 2^31 - 1. */
  function Advance(r: SessionRecord, now: int64): (a: SessionRecord)
    ensures a.firstTimestamp == r.firstTimestamp && a.userId == r.userId
  {
    r.(prevTimestamp := r.currTimestamp, currTimestamp := now, visits := Wrap32(r.visits + 1))
  }

  /** A start-up at or after the stored current time keeps the session well
      formed, as long as the visit counter has not reached `int`'s maximum;
      the visit count then grows by exactly one. */
  lemma AdvanceKeepsWellFormed(r: SessionRecord, now: int64)
    requires WellFormed(r) && r.currTimestamp <= now && r.visits < INT_MAX
    ensures WellFormed(Advance(r, now))
    ensures Advance(r, now).visits == r.visits + 1
  {
  }

  /** At `int`'s maximum the visit counter wraps to its minimum, and the
      session is no longer well formed. */
  lemma AdvanceWrapsVisits(r: SessionRecord, now: int64)
    requires r.visits == INT_MAX
    ensures Advance(r, now).visits == INT_MIN
    ensures !WellFormed(Advance(r, now))
  {
  }

  /** A clock that goes backwards breaks the timestamp order. */
  lemma AdvanceClockBackwards(r: SessionRecord, now: int64)
    requires now < r.currTimestamp
    ensures !WellFormed(Advance(r, now))
  {
  }

  /** Two start-ups: the second sees two visits, and its previous timestamp
      is the first one's current timestamp. */
  lemma SecondStartUp(first: int64, second: int64, userId: int32)
    requires 0 <= userId < USER_ID_BOUND
    ensures var s := Advance(NewSession(first, userId), second);
      s.visits == 2 && s.prevTimestamp == first && s.currTimestamp == second
      && s.firstTimestamp == first && s.userId == userId
  {
  }

  /** The cookie text before encoding:
      `__utma=999.userId.first.prev.curr.visits`. */
  function CookieText(r: SessionRecord): (t: string)
    ensures |t| >= 11 && t[..11] == "__utma=999."
  {
    var f := CookieFields(r);
    assert ("__utma=" + f)[..11] == "__utma=" + f[..4];
    "__utma=" + f
  }

  /** `getCookie`: the encoded cookie text. Only its `=` is escaped: with an
      ASCII-compatible charset the cookie is `__utma%3D` followed by the
      dot-separated decimal fields as they are, minus signs included. */
  function Cookie(cs: Encoder.Charset, r: SessionRecord): (c: string)
    ensures cs('=') == [0x3D] ==> c == "__utma%3D" + CookieFields(r)
  {
    if cs('=') == [0x3D] then EscapeEqualsSign(cs, CookieFields(r)); Encoder.Encode(cs, CookieText(r))
    else Encoder.Encode(cs, CookieText(r))
  }

  /** The cookie's fields after `__utma=`, dot separated: the constant domain
      hash `999` first, then the five numbers. None of it needs escaping. */
  function CookieFields(r: SessionRecord): (f: string)
    ensures |f| >= 4 && f[..4] == "999."
    ensures Encoder.AllUnreserved(f)
  {
    var pieces := CookiePieces(r);
    Encoder.ConcatUnreserved(pieces);
    assert Concat(pieces) == pieces[0] + (pieces[1] + Concat(pieces[2..]));
    Concat(pieces)
  }

  /** The pieces of the cookie's fields, in order: the domain hash, then
      userId, first, previous and current timestamps and visits, each after
      a dot. */
  function CookiePieces(r: SessionRecord): (p: seq<string>)
    ensures |p| >= 2 && p[0] == "999" && p[1] == "."
    ensures forall i :: 0 <= i < |p| ==> Encoder.AllUnreserved(p[i])
  {
    assert Encoder.AllUnreserved("999");
    ["999"] + DottedNumbers([r.userId, r.firstTimestamp, r.prevTimestamp, r.currTimestamp, r.visits])
  }

  /** Each number rendered in decimal after a dot. */
  function DottedNumbers(ns: seq<int>): (p: seq<string>)
    ensures |p| == 2 * |ns|
    ensures ns != [] ==> p[0] == "."
    ensures forall i :: 0 <= i < |p| ==> Encoder.AllUnreserved(p[i])
  {
    if ns == [] then []
    else
      IntToStringUnreserved(ns[0]);
      assert Encoder.AllUnreserved(".");
      [".", IntToString(ns[0])] + DottedNumbers(ns[1..])
  }

  /** A rendered number, minus sign included, needs no escaping. */
  lemma IntToStringUnreserved(n: int)
    ensures Encoder.AllUnreserved(IntToString(n))
  {
  }

  lemma EscapeEqualsSign(cs: Encoder.Charset, fields: string)
    requires cs('=') == [0x3D] && Encoder.AllUnreserved(fields)
    ensures Encoder.Encode(cs, "__utma=" + fields) == "__utma%3D" + fields
  {
    var name := "__utma";
    assert Encoder.AllUnreserved(name);
    assert "__utma=" + fields == name + ['='] + fields;
    Encoder.EncodeOneEscaped(cs, name, '=', fields);
    EqualsSignEscape();
    assert name + "%3D" + fields == "__utma%3D" + fields;
  }

  lemma EqualsSignEscape()
    ensures Encoder.PercentGroups([0x3D]) == "%3D"
  {
    assert Encoder.PercentGroups([0x3D]) == Encoder.PercentGroup(0x3D) + Encoder.PercentGroups([]);
    assert Encoder.HexDigit(3) == '3';
    assert Encoder.HexDigit(13) == 'D';
  }
}
