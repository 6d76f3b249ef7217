# HawtDB storage service of the moquette MQTT broker, in Dafny

This project models `HawtDBStorageService`, the persistence layer of the moquette MQTT broker.
It keeps four independent string-keyed indexes inside one HawtDB store:

- the **retained store**, topic → `StoredMessage(payload, qos)`;
- the **offline queue**, clientID → ordered list of `PublishEvent` waiting for a persistent-session
  client to reconnect;
- the **in-flight table**, composite key (clientID + messageID) → `PublishEvent` sent at QoS 1/2
  and not yet acknowledged;
- the **subscription registry**, clientID → list of `Subscription`.

Each HawtDB `SortedIndex` is modelled as a finite `map` from `string` to its value type. The
service is the class `HawtDBStorage.HawtDBStorageService`, with one map field per index. Each
mutating method states its effect on its own index as a function of the old index, and states that
the other three indexes are unchanged. The two full scans (`searchMatching`, `retrieveAllSubscriptions`)
are `while` loops that visit the keys in an arbitrary order. They are proved against
order-independent specifications (`IndexScan.Gather`, `IndexScan.SumOver`). Those specifications
pick any key first, and the `Pick` lemmas show that the choice does not matter.

Files:

- `messages.dfy` (module `Messages`): the value records (`StoredMessage`, `PublishEvent`,
  `Subscription`, `QosType`, `Option`).
- `index_scan.dfy` (module `IndexScan`): a full scan of an index, as a multiset and as a sum, with
  its lemmas.
- `storage_spec.dfy` (module `StorageSpec`): the effect of each operation on its index, and what
  the broker may rely on (tombstones, last write wins, FIFO queues, no de-duplication of
  subscriptions, scan contents and sizes).
- `hawtdb_storage.dfy` (module `HawtDBStorage`): the service class.

Three behaviours of `HawtDBStorageService` a caller might not expect:

- Subscriptions are a list, not a set. `addNewSubscription` appends without checking for an
  existing entry for the same topic filter, so a re-subscription creates a duplicate
  (`StorageSpec.AllSubscriptionsAfterAdd`), where MQTT 3.1.1 section 3.8.4 asks for replacement.
- `addInFlight` overwrites an existing record under the same key. Nothing stops a second
  outstanding delivery from replacing the first.
- `retrivePersistedPublishes` returns `null`, not an empty list, for a client without a queue.
  The model returns `None`.

The class invariant `Valid()` says that every event queued under a client identifier is addressed
to that client. The constructor establishes it and every method keeps it.

## Model

| member | source | states |
|---|---|---|
| HawtDBStorage.HawtDBStorageService.constructor | parser/src/main/java/org/dna/mqtt/moquette/messaging/spi/impl/HawtDBStorageService.java:46-57 | a new service (constructor followed by `initStore`) has four empty indexes and satisfies the queue invariant |
| HawtDBStorage.HawtDBStorageService.StoreRetained | parser/src/main/java/org/dna/mqtt/moquette/messaging/spi/impl/HawtDBStorageService.java:94-102 | the retained store becomes `RetainedAfterStore` of the old one; the queue, in-flight and subscription indexes are unchanged |
| StorageSpec.RetainedAfterStore | parser/src/main/java/org/dna/mqtt/moquette/messaging/spi/impl/HawtDBStorageService.java:94-102 | an empty payload leaves the topic absent; a non-empty one leaves exactly `StoredMessage(message, qos)` under it; every other topic keeps its presence and value |
| StorageSpec.TombstoneOnAbsentTopic | parser/src/main/java/org/dna/mqtt/moquette/messaging/spi/impl/HawtDBStorageService.java:95-97 | an empty-payload store for a topic that holds nothing leaves the whole retained store as it was |
| StorageSpec.RetainedLastWriteWins | parser/src/main/java/org/dna/mqtt/moquette/messaging/spi/impl/HawtDBStorageService.java:94-101 | two stores on one topic equal the second store alone, whether the second is a message or a tombstone |
| HawtDBStorage.HawtDBStorageService.SearchMatching | parser/src/main/java/org/dna/mqtt/moquette/messaging/spi/impl/HawtDBStorageService.java:104-117 | the result, as a multiset, is `Matching` of the retained store; it has one entry per matching topic, hence at most as many as the store; a message is in it iff some matching topic holds it; no state changes |
| StorageSpec.MatchingCount | parser/src/main/java/org/dna/mqtt/moquette/messaging/spi/impl/HawtDBStorageService.java:107-114 | each message occurs in the scan result exactly as often as there are matching topics that hold it |
| StorageSpec.MatchingSize | parser/src/main/java/org/dna/mqtt/moquette/messaging/spi/impl/HawtDBStorageService.java:107-114 | the scan result has exactly one entry per matching topic, and no more entries than the retained store |
| StorageSpec.MatchingMember | parser/src/main/java/org/dna/mqtt/moquette/messaging/spi/impl/HawtDBStorageService.java:109-113 | a message is in the scan result iff some topic satisfying the condition holds it |
| StorageSpec.MatchingAfterStore | parser/src/main/java/org/dna/mqtt/moquette/messaging/spi/impl/HawtDBStorageService.java:94-117 | after a store on a topic, the scan sees the other topics as before, plus the new message only when it is not a tombstone and its topic matches; the entry that was under that topic no longer contributes |
| StorageSpec.MatchingAfterInsert | parser/src/main/java/org/dna/mqtt/moquette/messaging/spi/impl/HawtDBStorageService.java:109-114 | filing a message under a new topic adds it to the scan result exactly when the topic matches |
| StorageSpec.MatchingExample | parser/src/main/java/org/dna/mqtt/moquette/messaging/spi/impl/HawtDBStorageService.java:104-117 | with "a/b", "a/c", "d/e" retaining X, Y, Z and a condition accepting only the first two, the scan finds exactly {X, Y} |
| IndexScan.GatherPick | parser/src/main/java/org/dna/mqtt/moquette/messaging/spi/impl/HawtDBStorageService.java:109-114 | a full scan's contents do not depend on which key is visited first (the index's iteration order is immaterial) |
| IndexScan.SumOverPick | parser/src/main/java/org/dna/mqtt/moquette/messaging/spi/impl/HawtDBStorageService.java:163-165 | a sum over all entries does not depend on which key is visited first |
| IndexScan.GatherAgree | parser/src/main/java/org/dna/mqtt/moquette/messaging/spi/impl/HawtDBStorageService.java:109-114 | a scan depends only on the values stored under the keys it visits |
| IndexScan.GatherWithout | parser/src/main/java/org/dna/mqtt/moquette/messaging/spi/impl/HawtDBStorageService.java:163-165 | a full scan is one entry's contribution plus the scan of the index without that key |
| IndexScan.GatherAfterPut | parser/src/main/java/org/dna/mqtt/moquette/messaging/spi/impl/HawtDBStorageService.java:109-114 | after a put, a full scan sees the new value once and every other entry as before |
| IndexScan.GatherSize | parser/src/main/java/org/dna/mqtt/moquette/messaging/spi/impl/HawtDBStorageService.java:163-165 | the size of a scan result is the sum of the sizes of the entries' contributions |
| IndexScan.GatherCount | parser/src/main/java/org/dna/mqtt/moquette/messaging/spi/impl/HawtDBStorageService.java:109-114 | how often a value occurs in a scan result is the sum of how often each entry contributes it |
| IndexScan.GatherMember | parser/src/main/java/org/dna/mqtt/moquette/messaging/spi/impl/HawtDBStorageService.java:109-114 | a value is in a scan result iff some visited entry contributes it |
| IndexScan.SumOverIndicator | parser/src/main/java/org/dna/mqtt/moquette/messaging/spi/impl/HawtDBStorageService.java:111-113 | summing a 0/1 score over the keys counts the keys that score 1 |
| HawtDBStorage.HawtDBStorageService.StorePublishForFuture | parser/src/main/java/org/dna/mqtt/moquette/messaging/spi/impl/HawtDBStorageService.java:119-129 | the offline queues become `Appended(old, evt.clientID, evt)`: the client's list, or an empty one, with `evt` at the end; the other indexes are unchanged; the queue invariant is kept |
| StorageSpec.Appended | parser/src/main/java/org/dna/mqtt/moquette/messaging/spi/impl/HawtDBStorageService.java:119-129 | read-modify-write append: the key becomes present, its list grows by exactly one, the old list is kept as a prefix and `x` is last; every other key is unchanged |
| StorageSpec.QueueKeyedAfterStore | parser/src/main/java/org/dna/mqtt/moquette/messaging/spi/impl/HawtDBStorageService.java:121-128 | filing an event under its own clientID keeps every queue holding only events addressed to its key |
| StorageSpec.QueueFifo | parser/src/main/java/org/dna/mqtt/moquette/messaging/spi/impl/HawtDBStorageService.java:119-133 | after a run of stores, each client's queue is its old queue followed by exactly the events addressed to it, in storing order |
| StorageSpec.QueueThreeInOrder | parser/src/main/java/org/dna/mqtt/moquette/messaging/spi/impl/HawtDBStorageService.java:119-133 | storing m1, m2, m3 for a client without a queue makes its queue exactly [m1, m2, m3] |
| HawtDBStorage.HawtDBStorageService.RetrievePersistedPublishes | parser/src/main/java/org/dna/mqtt/moquette/messaging/spi/impl/HawtDBStorageService.java:131-133 | returns the client's stored list when it has one and `None` (null) otherwise; every returned event is addressed to that client; nothing is cleared |
| HawtDBStorage.HawtDBStorageService.CleanPersistedPublishes | parser/src/main/java/org/dna/mqtt/moquette/messaging/spi/impl/HawtDBStorageService.java:135-137 | removes exactly the client's key from the offline queues; the other indexes are unchanged |
| HawtDBStorage.HawtDBStorageService.CleanInFlight | parser/src/main/java/org/dna/mqtt/moquette/messaging/spi/impl/HawtDBStorageService.java:139-141 | removes exactly the key from the in-flight table; the other indexes are unchanged |
| HawtDBStorage.HawtDBStorageService.AddInFlight | parser/src/main/java/org/dna/mqtt/moquette/messaging/spi/impl/HawtDBStorageService.java:143-145 | the in-flight table maps the key to `evt`, overwriting any earlier record; the other indexes are unchanged |
| StorageSpec.RemoveIdempotent | parser/src/main/java/org/dna/mqtt/moquette/messaging/spi/impl/HawtDBStorageService.java:135-141 | removing a key twice equals removing it once, and removing an absent key changes nothing |
| StorageSpec.InFlightRoundTrip | parser/src/main/java/org/dna/mqtt/moquette/messaging/spi/impl/HawtDBStorageService.java:139-145 | adding a record under a fresh key and then cleaning it restores the in-flight table; a second clean is a no-op |
| HawtDBStorage.HawtDBStorageService.AddNewSubscription | parser/src/main/java/org/dna/mqtt/moquette/messaging/spi/impl/HawtDBStorageService.java:147-155 | the registry becomes `Appended(old, clientID, newSubscription)`, with no de-duplication; the other indexes are unchanged |
| HawtDBStorage.HawtDBStorageService.RemoveAllSubscriptions | parser/src/main/java/org/dna/mqtt/moquette/messaging/spi/impl/HawtDBStorageService.java:157-159 | removes exactly the client's key from the registry; the other indexes are unchanged |
| HawtDBStorage.HawtDBStorageService.RetrieveAllSubscriptions | parser/src/main/java/org/dna/mqtt/moquette/messaging/spi/impl/HawtDBStorageService.java:161-167 | the result is the clients' lists concatenated, each kept whole as one block, in a visiting order that lists every client exactly once; as a multiset it is every client's list flattened; its length is the sum of all list lengths; a subscription is in it iff some client's list holds it; no state changes |
| StorageSpec.AllSubscriptionsSize | parser/src/main/java/org/dna/mqtt/moquette/messaging/spi/impl/HawtDBStorageService.java:161-167 | the flattened registry has as many entries as all clients' lists together |
| StorageSpec.AllSubscriptionsMember | parser/src/main/java/org/dna/mqtt/moquette/messaging/spi/impl/HawtDBStorageService.java:163-165 | a subscription is in the flattened registry iff some client's list holds it |
| StorageSpec.AllSubscriptionsAfterAdd | parser/src/main/java/org/dna/mqtt/moquette/messaging/spi/impl/HawtDBStorageService.java:147-167 | adding a subscription adds exactly one occurrence of it to the flattened registry |
| StorageSpec.AllSubscriptionsAfterRemove | parser/src/main/java/org/dna/mqtt/moquette/messaging/spi/impl/HawtDBStorageService.java:157-167 | removing a client's subscriptions removes exactly its list from the flattened registry |
| StorageSpec.VisitOne | parser/src/main/java/org/dna/mqtt/moquette/messaging/spi/impl/HawtDBStorageService.java:161-167 | visiting one more pending client keeps the visiting order duplicate-free and exact, and appends that client's whole list after the earlier ones |
| HawtDBStorage.QueueThenRetrieve | parser/src/main/java/org/dna/mqtt/moquette/messaging/spi/impl/HawtDBStorageService.java:119-133 | storing m1, m2, m3 for a client without a queue and then retrieving its queue returns `Some([m1, m2, m3])` |
| HawtDBStorage.InFlightThenClean | parser/src/main/java/org/dna/mqtt/moquette/messaging/spi/impl/HawtDBStorageService.java:139-145 | adding an in-flight record under a fresh key and cleaning that key twice leaves the in-flight table as it was |
| HawtDBStorage.SubscribeThenRemove | parser/src/main/java/org/dna/mqtt/moquette/messaging/spi/impl/HawtDBStorageService.java:147-167 | two added subscriptions are both in the next registry scan; after removing the client, it has no key left and the scan has lost exactly its list, including the two new entries |

## Left out

- `initStore` and the `init*Store` helpers open or create the named HawtDB indexes with their key codecs. They are modelled only as the constructor that starts with four empty maps. `MultiIndexFactory`, `BTreeIndexFactory` and `StringCodec` are not part of this model.
- Durability, crash consistency and the on-disk page format belong to the HawtDB library. They cannot be stated from this code.
- Concurrency: the fetch/append/put sequences in `storePublishForFuture` and `addNewSubscription` can lose an update under concurrent callers for the same client. The model is sequential.
- Java aliasing: the list returned by `get` is mutated in place and then put back. The model uses value semantics.
- Logging of the retained-store size in `searchMatching` is left out.
- `IMatchingCondition` (topic wildcard matching) is not part of this model. The condition is a total `string -> bool` parameter.
- The contents of `PublishEvent`, `Subscription`, `StoredMessage` and `AbstractMessage.QOSType` are not part of this model. The records carry the fields of an MQTT publish and subscription, and only `PublishEvent.clientID` is ever inspected.
- Null arguments (for example a null payload, which would throw in `storeRetained`) are not modelled.
- HawtDBStorage.HawtDBStorageService.SearchMatching: states the result by content (multiset), not by order. The source returns entries in the index's key order, and that order is not modelled.
- HawtDBStorage.HawtDBStorageService.RetrieveAllSubscriptions: states the result as the clients' lists in blocks, in some order that visits each client once. It does not state that this order is the index's key order.
