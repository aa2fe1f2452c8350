/**
 * Trigger records (worker_bunch/notification.py) and the per-listener bucket
 * that coalesces them by identity.
 */
module Notifications {
  import opened Wrappers
  import Utf8

  datatype NotificationType = Cron | Timer | MqttMessage | SingleStarted

  /** One trigger occurrence; `payload` is content, never identity. */
  datatype Notification = Notification(kind: NotificationType, topic: string, payload: Option<string>)

  /** The identity of a notification: its type and topic. */
  datatype Key = Key(kind: NotificationType, topic: string)

  function KeyOf(n: Notification): (k: Key)
    ensures k.kind == n.kind && k.topic == n.topic
  {
    Key(n.kind, n.topic)
  }

  /** Python's `==` on notifications. */
  predicate Same(a: Notification, b: Notification) {
    KeyOf(a) == KeyOf(b)
  }

  /** Python's `hash()`; `h` is the hash of the identity tuple. */
  function Hash(h: Key -> int, n: Notification): int {
    h(KeyOf(n))
  }

  lemma SameIgnoresPayload(a: Notification, b: Notification)
    ensures Same(a, b) <==> a.kind == b.kind && a.topic == b.topic
  {
  }

  lemma SameNotificationsHashAlike(h: Key -> int, a: Notification, b: Notification)
    requires Same(a, b)
    ensures Hash(h, a) == Hash(h, b)
  {
  }

  // ---- Python sets of notifications ----

  /** A Python set of notifications: at most one element per identity, stored under it. */
  type NotificationSet = map<Key, Notification>

  predicate WellKeyed(s: NotificationSet) {
    forall k :: k in s ==> KeyOf(s[k]) == k
  }

  /** `s |= more`: an element whose identity is already present stays; the others join. */
  function Union(s: NotificationSet, more: NotificationSet): (r: NotificationSet)
    ensures r.Keys == s.Keys + more.Keys
    ensures forall k :: k in s ==> r[k] == s[k]
    ensures forall k :: k in more && k !in s ==> r[k] == more[k]
    ensures WellKeyed(s) && WellKeyed(more) ==> WellKeyed(r)
  {
    more + s
  }

  // ---- NotificationBucket ----

  /** `bucket.add(n)`: stored under its identity, replacing an earlier payload. */
  function Add(bucket: NotificationSet, n: Notification): (r: NotificationSet)
    ensures r.Keys == bucket.Keys + {KeyOf(n)}
    ensures r[KeyOf(n)] == n
    ensures forall k :: k in bucket && k != KeyOf(n) ==> r[k] == bucket[k]
    ensures WellKeyed(bucket) ==> WellKeyed(r)
  {
    bucket[KeyOf(n) := n]
  }

  lemma AddSameIdentity(bucket: NotificationSet, a: Notification, b: Notification)
    requires Same(a, b)
    ensures |Add(Add(bucket, a), b)| == |Add(bucket, a)|
    ensures Add(Add(bucket, a), b)[KeyOf(a)].payload == b.payload
  {
    assert Add(Add(bucket, a), b).Keys == Add(bucket, a).Keys;
  }

  lemma AddNewIdentity(bucket: NotificationSet, n: Notification)
    requires KeyOf(n) !in bucket
    ensures |Add(bucket, n)| == |bucket| + 1
  {
    assert Add(bucket, n).Keys == bucket.Keys + {KeyOf(n)};
  }

  /** The bucket test: two payloads for topic "2" and one for "1" leave two entries, the newer "2" kept. */
  lemma BucketStoresLatest()
    ensures var n1 := Notification(MqttMessage, "1", Some("1"));
            var n21 := Notification(MqttMessage, "2", Some("2.1"));
            var n22 := Notification(MqttMessage, "2", Some("2.2"));
            var b := Add(Add(Add(map[], n1), n21), n22);
            |b| == 2 && b[KeyOf(n1)] == n1 && b[KeyOf(n22)].payload == Some("2.2") && |Clear(b)| == 0
  {
    var n1 := Notification(MqttMessage, "1", Some("1"));
    var n21 := Notification(MqttMessage, "2", Some("2.1"));
    var n22 := Notification(MqttMessage, "2", Some("2.2"));
    var b := Add(Add(Add(map[], n1), n21), n22);
    assert KeyOf(n1) != KeyOf(n21);
    assert b.Keys == {KeyOf(n1), KeyOf(n21)};
  }

  /** `bucket.clear()`. */
  function Clear(bucket: NotificationSet): (r: NotificationSet)
    ensures |r| == 0
  {
    map[]
  }

  // ---- decoding MQTT messages ----

  /** A topic or payload as paho hands it over: bytes or already a string. */
  datatype PyText = Bytes(bytes: seq<Utf8.byte>) | Str(text: string)

  datatype PahoMessage = PahoMessage(topic: PyText, payload: PyText)

  datatype DecodeError = UnicodeDecodeError

  /** `ensure_string`: bytes are UTF-8-decoded, a string comes back as it is. */
  function EnsureString(v: PyText): (r: Result<string, DecodeError>)
    ensures v.Str? ==> r == Ok(v.text)
    ensures v.Bytes? ==> (r.Ok? <==> Utf8.Decode(v.bytes).Some?)
    ensures v.Bytes? && r.Ok? ==> Utf8.Encode(r.value) == v.bytes
  {
    match v
    case Str(s) => Ok(s)
    case Bytes(b) =>
      match Utf8.Decode(b)
      case Some(s) => Utf8.EncodeDecode(b); Ok(s)
      case None => Err(UnicodeDecodeError)
  }

  /** `create_from_mqtt`. */
  function CreateFromMqtt(m: PahoMessage): (r: Result<Notification, DecodeError>)
    ensures r.Ok? <==> EnsureString(m.topic).Ok? && EnsureString(m.payload).Ok?
    ensures r.Ok? ==> r.value == Notification(MqttMessage, EnsureString(m.topic).value, Some(EnsureString(m.payload).value))
  {
    var topic :- EnsureString(m.topic);
    var payload :- EnsureString(m.payload);
    Ok(Notification(MqttMessage, topic, Some(payload)))
  }

  /** A message with string fields and the same message as UTF-8 bytes give the same notification. */
  lemma StrAndBytesGiveSameNotification(topic: string, payload: string)
    ensures CreateFromMqtt(PahoMessage(Str(topic), Str(payload)))
         == CreateFromMqtt(PahoMessage(Bytes(Utf8.Encode(topic)), Bytes(Utf8.Encode(payload))))
         == Ok(Notification(MqttMessage, topic, Some(payload)))
  {
    Utf8.DecodeEncode(topic);
    Utf8.DecodeEncode(payload);
  }
}
