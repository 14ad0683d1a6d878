/** The behaviour the repository's own test cases exercise, replayed
    against the model: the argument checks and memoisation of
    `getInstance`, and the dispatch loop that drains five queued beacons,
    queues a sixth half-way, and counts six calls. */
module Scenarios {
  import opened JavaLang
  import opened Encoder
  import opened Session
  import opened Persistence
  import opened Beacon
  import opened Analytics

  /** `GoogleAnalyticsInitTest`: before an instance exists a null MIDlet
      and a null account id are rejected with `IllegalArgumentException`;
      afterwards a second call, even with another account id, returns the
      same object. */
  method InitChecks(midlet: Midlet, properties: map<string, string>, charset: Charset,
                    clockMillis: int64, randomUserId: int32)
    returns (midletRejected: bool, accountRejected: bool, sameInstance: bool)
    requires midlet.numColors >= 1 && 0 <= randomUserId < USER_ID_BOUND
    ensures midletRejected && accountRejected && sameInstance
  {
    var store := new EventStore();
    var registry := new Registry(store);
    var r0 := registry.GetInstance(Some("TEST_ACCOUNT"), None, properties, charset, clockMillis, randomUserId, true, true);
    midletRejected := r0.Failure? && r0.error.IllegalArgument?;
    var r1 := registry.GetInstance(None, Some(midlet), properties, charset, clockMillis, randomUserId, true, true);
    accountRejected := r1.Failure? && r1.error.IllegalArgument?;
    var i1 := registry.GetInstance(Some("TEST_ACCOUNT"), Some(midlet), properties, charset, clockMillis, randomUserId, true, true);
    var i2 := registry.GetInstance(Some("TEST_ACCOUNT2"), Some(midlet), properties, charset, clockMillis, randomUserId, true, true);
    sameInstance := i1.Success? && i2.Success? && i1.value == i2.value;
  }

  /** The agent is in queued mode, and the root path it renders is the one
      its configuration and session give. */
  ghost predicate Queueing(agent: GoogleAnalytics)
    reads agent, agent.store, agent.session
  {
    agent.Valid() && agent.RootPathSound() && !agent.immediate
  }

  /** One queued beacon: the store grows by one record and the agent's
      snapshot is reloaded with the cursor at 0. */
  twostate predicate QueuedOne(agent: GoogleAnalytics)
    reads agent, agent.store
  {
    && |agent.store.events| == |old(agent.store.events)| + 1
    && agent.currentEventSet == Some(agent.store.events)
    && agent.processedEventIndex == 0
  }

  method QueuePageView(agent: GoogleAnalytics, url: string)
    requires Queueing(agent) && url != []
    modifies agent, agent.store
    ensures Queueing(agent) && QueuedOne(agent)
  {
    var thrown := agent.TrackPageView(Some(url), HTTP_OK, true, true);
  }

  method QueueEvent(agent: GoogleAnalytics, category: string, action: string, optLabel: string, optValue: int32)
    requires Queueing(agent)
    modifies agent, agent.store
    ensures Queueing(agent) && QueuedOne(agent)
  {
    var thrown := agent.TrackEvent(Some(category), Some(action), Some(optLabel), optValue, HTTP_OK, true, true);
  }

  /** One successful `readAndDispatch` while the store holds exactly the
      unsent part of the snapshot: the cursor moves on by one, the store
      still holds exactly the unsent part, and the result says whether any
      is left. */
  method DispatchNext(agent: GoogleAnalytics) returns (more: bool)
    requires Queueing(agent) && agent.currentEventSet.Some?
    requires agent.processedEventIndex < |agent.currentEventSet.value|
    requires agent.store.events == agent.currentEventSet.value[agent.processedEventIndex..]
    modifies agent, agent.store
    ensures Queueing(agent)
    ensures agent.currentEventSet == old(agent.currentEventSet)
    ensures agent.processedEventIndex == old(agent.processedEventIndex) + 1
    ensures agent.store.events == agent.currentEventSet.value[agent.processedEventIndex..]
    ensures more <==> agent.processedEventIndex < |agent.currentEventSet.value|
  {
    DispatchIsFifo(agent.currentEventSet.value, agent.processedEventIndex);
    more := agent.ReadAndDispatch(HTTP_OK, true, true);
  }

  /** `doStart`: the first `getInstance`, over a fresh, empty store. */
  method StartAgent(midlet: Midlet, properties: map<string, string>, charset: Charset,
                    clockMillis: int64, randomUserId: int32)
    returns (agent: GoogleAnalytics)
    requires midlet.numColors >= 1 && 0 <= randomUserId < USER_ID_BOUND
    ensures fresh(agent) && fresh(agent.store)
    ensures agent.Valid() && agent.RootPathSound()
    ensures agent.store.events == [] && agent.sent == []
  {
    var store := new EventStore();
    var registry := new Registry(store);
    var r := registry.GetInstance(Some("MO-1834873-5"), Some(midlet), properties, charset, clockMillis, randomUserId, true, true);
    agent := r.value;
  }

  /** The agent is in immediate mode, and the root path it renders is the
      one its configuration and session give. */
  ghost predicate Immediate(agent: GoogleAnalytics)
    reads agent, agent.store, agent.session
  {
    agent.Valid() && agent.RootPathSound() && agent.immediate
  }

  /** In immediate mode a page view is sent at once and nothing is stored. */
  method SendPageView(agent: GoogleAnalytics, url: string, status: int)
    requires Immediate(agent) && url != []
    modifies agent, agent.store
    ensures Immediate(agent) && agent.store.events == old(agent.store.events)
    ensures agent.sent == old(agent.sent) + [(PageViewBeacon(agent.charset, agent.renderedRoot, url), status)]
  {
    var thrown := agent.TrackPageView(Some(url), status, true, true);
  }

  /** In immediate mode an event is sent at once and nothing is stored. */
  method SendEvent(agent: GoogleAnalytics, category: string, action: string, optLabel: string, optValue: int32, status: int)
    requires Immediate(agent)
    modifies agent, agent.store
    ensures Immediate(agent) && agent.store.events == old(agent.store.events)
    ensures agent.sent == old(agent.sent)
              + [(EventBeacon(agent.charset, agent.renderedRoot, category, action, Some(optLabel), optValue), status)]
  {
    var thrown := agent.TrackEvent(Some(category), Some(action), Some(optLabel), optValue, status, true, true);
  }

  /** A fresh agent over an empty store, switched to immediate mode. */
  method ImmediateAgent(midlet: Midlet, properties: map<string, string>, charset: Charset,
                        clockMillis: int64, randomUserId: int32)
    returns (agent: GoogleAnalytics)
    requires midlet.numColors >= 1 && 0 <= randomUserId < USER_ID_BOUND
    ensures fresh(agent) && fresh(agent.store)
    ensures Immediate(agent) && agent.store.events == [] && agent.sent == []
  {
    agent := StartAgent(midlet, properties, charset, clockMillis, randomUserId);
    agent.SetImmediate(true);
  }

  /** `trackPageViewTest` and `trackEventTest`, for any page path and event,
      on an agent that `ImmediateAgent` started: in immediate mode each call
      sends its beacon at once, whatever the collector answers, and stores
      nothing. */
  method ImmediateSends(agent: GoogleAnalytics, status1: int, status2: int,
                        url: string, category: string, action: string, optLabel: string, optValue: int32)
    requires Immediate(agent) && agent.store.events == [] && agent.sent == [] && url != []
    modifies agent, agent.store
    ensures agent.sent == [
      (PageViewBeacon(agent.charset, agent.renderedRoot, url), status1),
      (EventBeacon(agent.charset, agent.renderedRoot, category, action, Some(optLabel), optValue), status2)]
    ensures agent.store.events == []
  {
    ghost var pageView := PageViewBeacon(agent.charset, agent.renderedRoot, url);
    ghost var event := EventBeacon(agent.charset, agent.renderedRoot, category, action, Some(optLabel), optValue);
    SendPageView(agent, url, status1);
    assert agent.sent == [(pageView, status1)];
    SendEvent(agent, category, action, optLabel, optValue, status2);
  }

  /** The set-up and first part of `testReadAndDispatch`: a fresh agent
      over an empty store, switched to queued mode, then two page views and
      three events, which leave five records and a snapshot of all five. */
  method QueueFive(midlet: Midlet, properties: map<string, string>, charset: Charset,
                   clockMillis: int64, randomUserId: int32)
    returns (agent: GoogleAnalytics)
    requires midlet.numColors >= 1 && 0 <= randomUserId < USER_ID_BOUND
    ensures fresh(agent) && fresh(agent.store) && Queueing(agent)
    ensures |agent.store.events| == 5
    ensures agent.currentEventSet == Some(agent.store.events) && agent.processedEventIndex == 0
  {
    agent := StartAgent(midlet, properties, charset, clockMillis, randomUserId);
    agent.SetImmediate(false);
    QueuePageView(agent, "/rndview");
    QueueEvent(agent, "dispatch", "action", "label", -1);
    QueuePageView(agent, "/rndview2");
    QueueEvent(agent, "dispatch", "action2", "label", -1);
    QueueEvent(agent, "dispatch", "action3", "label", -1);
  }

  /** `PageViewTrackEventTest.testReadAndDispatch` on a working store and a
      collector that always answers 200: five beacons are queued; the loop
      calls `readAndDispatch` until it returns false and queues a sixth
      beacon after the third call. The sixth call sends the last beacon and
      returns false, so the loop counts six calls, and the store is left
      empty. */
  method DispatchLoop(midlet: Midlet, properties: map<string, string>, charset: Charset,
                      clockMillis: int64, randomUserId: int32)
    returns (numberOfDispatches: int, remaining: seq<EventRecord>)
    requires midlet.numColors >= 1 && 0 <= randomUserId < USER_ID_BOUND
    ensures numberOfDispatches == 6
    ensures remaining == []
  {
    var agent := QueueFive(midlet, properties, charset, clockMillis, randomUserId);
    var store := agent.store;
    numberOfDispatches := 0;
    while true
      invariant 0 <= numberOfDispatches <= 5
      invariant Queueing(agent) && agent.store == store
      invariant agent.currentEventSet.Some?
      invariant store.events == agent.currentEventSet.value[agent.processedEventIndex..]
      invariant numberOfDispatches < 3 ==>
                  |agent.currentEventSet.value| == 5 && agent.processedEventIndex == numberOfDispatches
      invariant numberOfDispatches >= 3 ==>
                  |agent.currentEventSet.value| == 3 && agent.processedEventIndex == numberOfDispatches - 3
      decreases 6 - numberOfDispatches
    {
      numberOfDispatches := numberOfDispatches + 1;
      var more := DispatchNext(agent);
      if !more {
        break;
      }
      if numberOfDispatches == 3 {
        QueuePageView(agent, "/rndview3");
      }
    }
    remaining := store.events;
  }
}
