/** The durable store behind `AnalyticsDataPersistenceUtils`: queued beacons
    in insertion order and the stored session records, each identified by
    the object id the store gave it. Every store failure is swallowed by the
    utilities: a failing find reads as "nothing stored" (a null set, a null
    session) and a failing save or delete does nothing. Whether a call
    fails is decided by the device's record store, so each store operation
    takes it as a parameter `ok`. */
module Persistence {
  import opened JavaLang
  import opened Session

  /** A persisted `EventData`: its object id and its beacon URL. */
  datatype EventRecord = EventRecord(id: nat, url: string)

  /** A persisted `SessionData`: its object id and the values it holds. */
  datatype SessionEntry = SessionEntry(id: nat, record: SessionRecord)

  ghost predicate UniqueIds(s: seq<EventRecord>) {
    forall i, j :: 0 <= i < j < |s| ==> s[i].id != s[j].id
  }

  /** `PersistableManager.delete`: the records left after removing the one
      with the given id, in their order. */
  function RemoveId(s: seq<EventRecord>, id: nat): (r: seq<EventRecord>)
    ensures forall e :: e in r <==> e in s && e.id != id
    ensures UniqueIds(s) ==> UniqueIds(r)
    ensures |r| <= |s|
  {
    if s == [] then []
    else if s[0].id == id then RemoveId(s[1..], id)
    else
      var rest := RemoveId(s[1..], id);
      assert forall e :: e in rest ==> e in s[1..];
      [s[0]] + rest
  }

  /** Removing a record that is stored once removes exactly one record; an
      id that is not stored removes nothing. */
  lemma {:induction false} RemoveIdCount(s: seq<EventRecord>, id: nat)
    requires UniqueIds(s)
    ensures (exists e :: e in s && e.id == id) ==> |RemoveId(s, id)| == |s| - 1
    ensures (forall e :: e in s ==> e.id != id) ==> RemoveId(s, id) == s
  {
    if s != [] {
      assert UniqueIds(s[1..]);
      RemoveIdCount(s[1..], id);
      if s[0].id == id {
        assert forall e :: e in s[1..] ==> e.id != id;
      } else {
        assert (exists e :: e in s && e.id == id) ==> exists e :: e in s[1..] && e.id == id;
      }
    }
  }

  /** Removing an id that no record carries leaves the records as they are. */
  lemma {:induction false} RemoveIdNone(s: seq<EventRecord>, id: nat)
    requires forall i :: 0 <= i < |s| ==> s[i].id != id
    ensures RemoveId(s, id) == s
  {
    if s != [] {
      assert forall i :: 0 <= i < |s[1..]| ==> s[1..][i].id != id by {
        forall i | 0 <= i < |s[1..]| ensures s[1..][i].id != id { assert s[1..][i] == s[i + 1]; }
      }
      RemoveIdNone(s[1..], id);
      assert [s[0]] + s[1..] == s;
    }
  }

  /** Dropping position `k` of `s` is keeping its head and dropping
      position `k - 1` of its tail. */
  lemma DropAtCons<T>(s: seq<T>, k: nat)
    requires 0 < k < |s|
    ensures [s[0]] + (s[1..][..k - 1] + s[1..][k..]) == s[..k] + s[k + 1..]
  {
    assert s[1..][..k - 1] == s[1..k] && s[1..][k..] == s[k + 1..];
    assert [s[0]] + s[1..k] == s[..k];
  }

  /** Deleting the record at any position of a store with distinct ids
      removes exactly that record and keeps the others in their order. */
  lemma {:induction false} RemoveIdAt(s: seq<EventRecord>, k: nat)
    requires UniqueIds(s) && k < |s|
    ensures RemoveId(s, s[k].id) == s[..k] + s[k + 1..]
  {
    var id := s[k].id;
    var t := s[1..];
    if k == 0 {
      assert forall i :: 0 <= i < |t| ==> t[i].id != id by {
        forall i | 0 <= i < |t| ensures t[i].id != id { assert t[i] == s[i + 1]; }
      }
      RemoveIdNone(t, id);
      assert s[..0] + s[1..] == t;
    } else {
      assert UniqueIds(t) by {
        forall i, j | 0 <= i < j < |t| ensures t[i].id != t[j].id {
          assert t[i] == s[i + 1] && t[j] == s[j + 1];
        }
      }
      assert t[k - 1] == s[k];
      RemoveIdAt(t, k - 1);
      assert s[0].id != id;
      DropAtCons(s, k);
    }
  }

  ghost predicate UniqueSessionIds(s: seq<SessionEntry>) {
    forall i, j :: 0 <= i < j < |s| ==> s[i].id != s[j].id
  }

  /** The save of an object loaded from the store: the record with its id
      now holds the object's values, and every other record, and the order,
      stay as they were. An id no record carries changes nothing. */
  function SetRecord(s: seq<SessionEntry>, id: nat, v: SessionRecord): (t: seq<SessionEntry>)
    ensures |t| == |s|
    ensures forall i :: 0 <= i < |s| && s[i].id == id ==> t[i] == SessionEntry(id, v)
    ensures forall i :: 0 <= i < |s| && s[i].id != id ==> t[i] == s[i]
  {
    if s == [] then []
    else [if s[0].id == id then SessionEntry(id, v) else s[0]] + SetRecord(s[1..], id, v)
  }

  /** Saving the first record back updates it in place: with distinct ids,
      only position 0 changes. */
  lemma SetFirstRecord(s: seq<SessionEntry>, v: SessionRecord)
    requires UniqueSessionIds(s) && s != []
    ensures SetRecord(s, s[0].id, v) == s[0 := SessionEntry(s[0].id, v)]
  {
    var t := SetRecord(s, s[0].id, v);
    forall i | 0 <= i < |s| ensures t[i] == s[0 := SessionEntry(s[0].id, v)][i] {
      if i > 0 {
        assert s[0].id != s[i].id;
      }
    }
  }

  /** What `readSessionData` returns: the first stored session, or nothing
      when the find fails or no session is stored. */
  function FirstSession(ok: bool, s: seq<SessionEntry>): Option<SessionRecord> {
    if ok && s != [] then Some(s[0].record) else None
  }

  class EventStore {
    /** The stored `EventData` records, in insertion order. */
    var events: seq<EventRecord>
    /** The stored `SessionData` records, in insertion order. */
    var sessions: seq<SessionEntry>
    /** The id the next saved `EventData` receives. */
    var nextId: nat
    /** The id the next newly saved `SessionData` receives. */
    var nextSessionId: nat

    ghost predicate Valid()
      reads this
    {
      && UniqueIds(events)
      && (forall e :: e in events ==> e.id < nextId)
      && UniqueSessionIds(sessions)
      && (forall e :: e in sessions ==> e.id < nextSessionId)
    }

    /** An empty store. */
    constructor ()
      ensures Valid() && events == [] && sessions == []
    {
      events, sessions, nextId, nextSessionId := [], [], 0, 0;
    }

    /** `getEventDataSet`: the stored records in insertion order, or null
        when the find fails. */
    method Find(ok: bool) returns (r: Option<seq<EventRecord>>)
      requires Valid()
      ensures ok ==> r == Some(events)
      ensures !ok ==> r == None
    {
      if ok {
        r := Some(events);
      } else {
        r := None;
      }
    }

    /** `storeData` of a new `EventData`: appends one record with a fresh
        id; a failing save changes nothing. */
    method SaveEvent(url: string, ok: bool)
      requires Valid()
      modifies this
      ensures Valid()
      ensures sessions == old(sessions) && nextSessionId == old(nextSessionId)
      ensures ok ==> events == old(events) + [EventRecord(old(nextId), url)] && nextId == old(nextId) + 1
      ensures !ok ==> events == old(events) && nextId == old(nextId)
    {
      if ok {
        events := events + [EventRecord(nextId, url)];
        nextId := nextId + 1;
      }
    }

    /** `deleteData` of an `EventData`; a failing delete changes nothing. */
    method Delete(e: EventRecord, ok: bool)
      requires Valid()
      modifies this
      ensures Valid()
      ensures sessions == old(sessions) && nextSessionId == old(nextSessionId) && nextId == old(nextId)
      ensures ok ==> events == RemoveId(old(events), e.id)
      ensures !ok ==> events == old(events)
    {
      if ok {
        events := RemoveId(events, e.id);
      }
    }

    /** `readSessionData`: the first stored session as a freshly loaded
        object that carries its record's id, or null when the find fails
        or no session is stored. */
    method ReadSessionData(ok: bool) returns (data: SessionData?)
      ensures data == null <==> FirstSession(ok, sessions).None?
      ensures data != null ==>
                && fresh(data) && data.Value() == sessions[0].record
                && data.storeId == Some(sessions[0].id)
    {
      if ok && sessions != [] {
        var r := sessions[0].record;
        data := new SessionData();
        data.SetPrevTimestamp(r.prevTimestamp);
        data.SetCurrTimestamp(r.currTimestamp);
        data.SetFirstTimestamp(r.firstTimestamp);
        data.SetVisits(r.visits);
        data.SetUserId(r.userId);
        data.storeId := Some(sessions[0].id);
        RecordsEqualByFields(data.Value(), r);
      } else {
        data := null;
      }
    }

    /** `storeData` of a `SessionData`. An object that was never saved is
        inserted as a new record at the end, and it now carries that
        record's id; an object loaded from the store overwrites its own
        record. A failing save changes nothing. */
    method SaveSession(data: SessionData, ok: bool)
      requires Valid()
      modifies this, data`storeId
      ensures Valid()
      ensures events == old(events) && nextId == old(nextId)
      ensures !ok ==> sessions == old(sessions) && nextSessionId == old(nextSessionId) && data.storeId == old(data.storeId)
      ensures ok && old(data.storeId).None? ==>
                && sessions == old(sessions) + [SessionEntry(old(nextSessionId), data.Value())]
                && nextSessionId == old(nextSessionId) + 1
                && data.storeId == Some(old(nextSessionId))
      ensures ok && old(data.storeId).Some? ==>
                && sessions == SetRecord(old(sessions), old(data.storeId).value, data.Value())
                && nextSessionId == old(nextSessionId) && data.storeId == old(data.storeId)
    {
      if ok {
        if data.storeId.None? {
          sessions := sessions + [SessionEntry(nextSessionId, data.Value())];
          data.storeId := Some(nextSessionId);
          nextSessionId := nextSessionId + 1;
        } else {
          sessions := SetRecord(sessions, data.storeId.value, data.Value());
        }
      }
    }
  }
}
