/** The broker's persistence service: four independent string-keyed indexes, each backed by a
    sorted index of the underlying store and modelled here as a finite map. Every operation
    reads or changes exactly one of them. */
module HawtDBStorage {
  import opened Messages
  import opened IndexScan
  import opened StorageSpec

  class HawtDBStorageService {
    /** topic -> last retained message */
    var retained: map<string, StoredMessage>
    /** clientID -> events waiting for the client to come back, oldest first */
    var persistedMessages: map<string, seq<PublishEvent>>
    /** clientID + messageID -> event sent but not yet acknowledged */
    var inflight: map<string, PublishEvent>
    /** clientID -> subscriptions of a persistent session */
    var subscriptions: map<string, seq<Subscription>>

    /** Every offline queue holds only events addressed to the client it is filed under. */
    ghost predicate Valid()
      reads this
    {
      QueuesKeyed(persistedMessages)
    }

    /** Creating the service and opening (or creating) its four indexes, all empty. */
    constructor ()
      ensures Valid()
      ensures retained == map[] && persistedMessages == map[]
      ensures inflight == map[] && subscriptions == map[]
    {
      retained := map[];
      persistedMessages := map[];
      inflight := map[];
      subscriptions := map[];
    }

    method StoreRetained(topic: string, message: seq<byte>, qos: QosType)
      requires Valid()
      modifies this
      ensures Valid()
      ensures retained == RetainedAfterStore(old(retained), topic, message, qos)
      ensures persistedMessages == old(persistedMessages) && inflight == old(inflight)
      ensures subscriptions == old(subscriptions)
    {
      if |message| == 0 {
        retained := retained - {topic};
      } else {
        retained := retained[topic := StoredMessage(message, qos)];
      }
    }

    /** A full scan of the retained store, keeping the messages whose topic matches. */
    method SearchMatching(condition: string -> bool) returns (results: seq<StoredMessage>)
      ensures multiset(results) == Matching(retained, condition)
      ensures |results| == |set t | t in retained && condition(t)| <= |retained|
      ensures forall v :: v in results <==> exists t :: t in retained && condition(t) && retained[t] == v
    {
      results := [];
      var pending := retained.Keys;
      while pending != {}
        invariant pending <= retained.Keys
        invariant multiset(results) + Gather(retained, pending, KeepIfMatches(condition)) == Matching(retained, condition)
        decreases pending
      {
        var topic :| topic in pending;
        GatherPick(retained, pending, KeepIfMatches(condition), topic);
        var storedMsg := retained[topic];
        if condition(topic) {
          results := results + [storedMsg];
        }
        pending := pending - {topic};
      }
      MatchingSize(retained, condition);
      forall v
        ensures v in results <==> exists t :: t in retained && condition(t) && retained[t] == v
      {
        MatchingMember(retained, condition, v);
      }
    }

    method StorePublishForFuture(evt: PublishEvent)
      requires Valid()
      modifies this
      ensures Valid()
      ensures persistedMessages == Appended(old(persistedMessages), evt.clientID, evt)
      ensures retained == old(retained) && inflight == old(inflight)
      ensures subscriptions == old(subscriptions)
    {
      var storedEvents: seq<PublishEvent>;
      var clientID := evt.clientID;
      if clientID !in persistedMessages {
        storedEvents := [];
      } else {
        storedEvents := persistedMessages[clientID];
      }
      storedEvents := storedEvents + [evt];
      QueueKeyedAfterStore(persistedMessages, evt);
      persistedMessages := persistedMessages[clientID := storedEvents];
    }

    /** The client's queue as stored, or None when it has none; nothing is cleared. */
    method RetrievePersistedPublishes(clientID: string) returns (r: Option<seq<PublishEvent>>)
      requires Valid()
      ensures r.Some? <==> clientID in persistedMessages
      ensures r.Some? ==> r.value == persistedMessages[clientID]
      ensures r.Some? ==> forall i :: 0 <= i < |r.value| ==> r.value[i].clientID == clientID
    {
      if clientID in persistedMessages {
        r := Some(persistedMessages[clientID]);
      } else {
        r := None;
      }
    }

    method CleanPersistedPublishes(clientID: string)
      requires Valid()
      modifies this
      ensures Valid()
      ensures persistedMessages == old(persistedMessages) - {clientID}
      ensures retained == old(retained) && inflight == old(inflight)
      ensures subscriptions == old(subscriptions)
    {
      persistedMessages := persistedMessages - {clientID};
    }

    method CleanInFlight(msgID: string)
      requires Valid()
      modifies this
      ensures Valid()
      ensures inflight == old(inflight) - {msgID}
      ensures retained == old(retained) && persistedMessages == old(persistedMessages)
      ensures subscriptions == old(subscriptions)
    {
      inflight := inflight - {msgID};
    }

    method AddInFlight(evt: PublishEvent, publishKey: string)
      requires Valid()
      modifies this
      ensures Valid()
      ensures inflight == old(inflight)[publishKey := evt]
      ensures retained == old(retained) && persistedMessages == old(persistedMessages)
      ensures subscriptions == old(subscriptions)
    {
      inflight := inflight[publishKey := evt];
    }

    method AddNewSubscription(newSubscription: Subscription, clientID: string)
      requires Valid()
      modifies this
      ensures Valid()
      ensures subscriptions == Appended(old(subscriptions), clientID, newSubscription)
      ensures retained == old(retained) && persistedMessages == old(persistedMessages)
      ensures inflight == old(inflight)
    {
      if clientID !in subscriptions {
        subscriptions := subscriptions[clientID := []];
      }
      var subs := subscriptions[clientID];
      subs := subs + [newSubscription];
      subscriptions := subscriptions[clientID := subs];
    }

    method RemoveAllSubscriptions(clientID: string)
      requires Valid()
      modifies this
      ensures Valid()
      ensures subscriptions == old(subscriptions) - {clientID}
      ensures retained == old(retained) && persistedMessages == old(persistedMessages)
      ensures inflight == old(inflight)
    {
      subscriptions := subscriptions - {clientID};
    }

    /** A full scan of the registry, concatenating every client's list. `order` is the
        sequence in which the clients were visited. */
    method RetrieveAllSubscriptions() returns (allSubscriptions: seq<Subscription>, ghost order: seq<string>)
      ensures multiset(allSubscriptions) == AllSubscriptions(subscriptions)
      ensures |allSubscriptions| == TotalLength(subscriptions)
      ensures forall s :: s in allSubscriptions <==> exists c :: c in subscriptions && s in subscriptions[c]
      ensures ListsKeysOnce(subscriptions, order)
      ensures allSubscriptions == Flatten(subscriptions, order)
    {
      allSubscriptions := [];
      order := [];
      var pending := subscriptions.Keys;
      while pending != {}
        invariant VisitedOnce(subscriptions, order, pending)
        invariant allSubscriptions == Flatten(subscriptions, order)
        invariant multiset(allSubscriptions) + Gather(subscriptions, pending, ListItems) == AllSubscriptions(subscriptions)
        decreases pending
      {
        var clientID :| clientID in pending;
        GatherPick(subscriptions, pending, ListItems, clientID);
        VisitOne(subscriptions, order, pending, clientID);
        allSubscriptions := allSubscriptions + subscriptions[clientID];
        order := order + [clientID];
        pending := pending - {clientID};
      }
      VisitedAll(subscriptions, order);
      AllSubscriptionsSize(subscriptions);
      forall s
        ensures s in allSubscriptions <==> exists c :: c in subscriptions && s in subscriptions[c]
      {
        AllSubscriptionsMember(subscriptions, s);
      }
    }
  }

  /** Storing m1, m2, m3 for a client without a queue and then retrieving its queue gives
      [m1, m2, m3], oldest first. */
  method QueueThenRetrieve(service: HawtDBStorageService, m1: PublishEvent, m2: PublishEvent, m3: PublishEvent)
    returns (r: Option<seq<PublishEvent>>)
    requires service.Valid()
    requires m1.clientID == m2.clientID == m3.clientID
    requires m1.clientID !in service.persistedMessages
    modifies service
    ensures service.Valid()
    ensures r == Some([m1, m2, m3])
  {
    var c := m1.clientID;
    service.StorePublishForFuture(m1);
    assert service.persistedMessages[c] == [m1];
    service.StorePublishForFuture(m2);
    assert service.persistedMessages[c] == [m1, m2];
    service.StorePublishForFuture(m3);
    assert service.persistedMessages[c] == [m1, m2, m3];
    r := service.RetrievePersistedPublishes(c);
  }

  /** Marking an event in flight under a fresh key and cleaning that key twice leaves the
      in-flight table as it was; the second clean is a no-op. */
  method InFlightThenClean(service: HawtDBStorageService, evt: PublishEvent, publishKey: string)
    requires service.Valid()
    requires publishKey !in service.inflight
    modifies service
    ensures service.Valid()
    ensures service.inflight == old(service.inflight)
  {
    service.AddInFlight(evt, publishKey);
    service.CleanInFlight(publishKey);
    service.CleanInFlight(publishKey);
  }

  /** Two subscriptions added for one client both show up in the registry scan; after the
      client's subscriptions are removed, the scan has lost exactly that client's list. */
  method SubscribeThenRemove(service: HawtDBStorageService, s1: Subscription, s2: Subscription, clientID: string)
    returns (before: seq<Subscription>, after: seq<Subscription>)
    requires service.Valid()
    modifies service
    ensures service.Valid()
    ensures s1 in before && s2 in before
    ensures clientID !in service.subscriptions
    ensures multiset(after) == multiset(before) - multiset(ListAt(old(service.subscriptions), clientID) + [s1, s2])
  {
    ghost var start := service.subscriptions;
    service.AddNewSubscription(s1, clientID);
    service.AddNewSubscription(s2, clientID);
    ghost var full := service.subscriptions;
    assert full[clientID] == ListAt(start, clientID) + [s1, s2];
    ghost var order;
    before, order := service.RetrieveAllSubscriptions();
    assert s1 in full[clientID] && s2 in full[clientID];
    service.RemoveAllSubscriptions(clientID);
    after, order := service.RetrieveAllSubscriptions();
    AllSubscriptionsAfterRemove(full, clientID);
  }
}
