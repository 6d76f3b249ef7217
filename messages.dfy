/** The value records the storage layer keeps in its four indexes. The layer never looks
    inside them except for the client identifier of a publish event. */
module Messages {

  /** An octet of a message payload. */
  newtype byte = x: int | 0 <= x < 256

  /** "Absent" for a lookup that finds no key (the source returns null). */
  datatype Option<T> = None | Some(value: T)

  /** MQTT quality-of-service levels. */
  datatype QosType = AtMostOnce | AtLeastOnce | ExactlyOnce

  /** The last retained message of a topic: its payload and the QoS it was published with. */
  datatype StoredMessage = StoredMessage(payload: seq<byte>, qos: QosType)

  /** An outbound publish destined for one client; messageID is assigned once it goes in flight. */
  datatype PublishEvent = PublishEvent(
    clientID: string,
    topic: string,
    payload: seq<byte>,
    qos: QosType,
    retain: bool,
    messageID: Option<int>)

  /** A client's subscription to a topic filter. */
  datatype Subscription = Subscription(clientID: string, topicFilter: string, qos: QosType)
}
