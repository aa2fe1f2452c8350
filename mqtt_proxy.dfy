/**
 * The outbound MQTT proxy the workers share: messages are queued and sent
 * in one go, in queue order, when the runner flushes the queue. Without a
 * client the proxy pretends to be connected, receives nothing and refuses
 * to queue.
 *
 * The client itself is outside the model; the proxy keeps the calls it
 * makes on the client in `calls`, and what the client answers is passed in.
 */
module MqttProxies {
  import opened Wrappers
  import opened Dicts
  import opened Json
  import opened Notifications

  /** A payload as workers hand it over: a string, or a dictionary sent as JSON. */
  datatype Payload = TextPayload(text: string) | DictPayload(members: Dict<string, Json>)

  /** The Python truthiness of a payload. */
  predicate PayloadTruthy(p: Payload) {
    match p
    case TextPayload(text) => text != []
    case DictPayload(members) => members != []
  }

  /** `ProxyMessage(topic, payload, retain)`. */
  datatype ProxyMessage = ProxyMessage(topic: string, payload: Payload, retain: Option<bool>)

  /** A call of the proxy on the client. */
  datatype ClientCall =
    | Connect
    | SetLastWill(topic: string, lastWill: Payload, retain: Option<bool>)
    | SubscribeTopics(topics: seq<string>)
    | Publish(topic: string, payload: Payload, retain: Option<bool>)

  datatype ConfigException = NoClientConfigured

  /** The client call that sends one queued message. */
  function SendOf(m: ProxyMessage): ClientCall {
    Publish(m.topic, m.payload, m.retain)
  }

  /** The client calls that send `ms`, one after another. */
  function Sends(ms: seq<ProxyMessage>): seq<ClientCall> {
    if ms == [] then [] else Sends(ms[..|ms| - 1]) + [SendOf(ms[|ms| - 1])]
  }

  /** One send per message, the i-th call sending the i-th message. */
  lemma {:induction false} SendsInOrder(ms: seq<ProxyMessage>)
    ensures |Sends(ms)| == |ms|
    ensures forall i :: 0 <= i < |ms| ==> Sends(ms)[i] == Publish(ms[i].topic, ms[i].payload, ms[i].retain)
  {
    if ms != [] {
      var front := ms[..|ms| - 1];
      SendsInOrder(front);
      forall i | 0 <= i < |ms| - 1 ensures Sends(ms)[i] == SendOf(ms[i]) {
        assert Sends(ms)[i] == Sends(front)[i];
        assert front[i] == ms[i];
      }
    }
  }

  /** Sending two queues one after the other is sending the joined queue. */
  lemma {:induction false} SendsConcat(a: seq<ProxyMessage>, b: seq<ProxyMessage>)
    ensures Sends(a + b) == Sends(a) + Sends(b)
    decreases |b|
  {
    if b != [] {
      var b' := b[..|b| - 1];
      assert (a + b)[..|a + b| - 1] == a + b';
      assert (a + b)[|a + b| - 1] == b[|b| - 1];
      SendsConcat(a, b');
    } else {
      assert a + b == a;
    }
  }

  class MqttProxy {
    var hasClient: bool
    var messages: seq<ProxyMessage>
    var calls: seq<ClientCall>

    constructor(hasClient: bool)
      ensures this.hasClient == hasClient && messages == [] && calls == []
    {
      this.hasClient := hasClient;
      messages := [];
      calls := [];
    }

    /** `publish`: every queued message goes to the client in queue order, and the queue is emptied. */
    method Publish()
      modifies this`messages, this`calls
      ensures old(hasClient) ==> messages == [] && calls == old(calls) + Sends(old(messages))
      ensures !old(hasClient) ==> messages == old(messages) && calls == old(calls)
    {
      if hasClient {
        var ms := messages;
        messages := [];
        var i := 0;
        while i < |ms|
          invariant 0 <= i <= |ms|
          invariant messages == [] && calls == old(calls) + Sends(ms[..i])
        {
          assert ms[..i + 1][..i] == ms[..i];
          calls := calls + [SendOf(ms[i])];
          i := i + 1;
        }
        assert ms[..|ms|] == ms;
      }
    }

    /** `close`: what is queued is published, then the client is dropped. */
    method Close()
      modifies this`messages, this`calls, this`hasClient
      ensures !hasClient
      ensures old(hasClient) ==> messages == [] && calls == old(calls) + Sends(old(messages))
      ensures !old(hasClient) ==> messages == old(messages) && calls == old(calls)
    {
      Publish();
      hasClient := false;
    }

    /** `connect`: passed on to the client, if there is one. */
    method ConnectClient()
      modifies this`calls
      ensures calls == old(calls) + if hasClient then [Connect] else []
    {
      if hasClient {
        calls := calls + [Connect];
      }
    }

    /** `is_connected`: the client's answer, True without a client. */
    method IsConnected(clientConnected: bool) returns (b: bool)
      ensures b <==> !hasClient || clientConnected
    {
      b := if hasClient then clientConnected else true;
    }

    /** `set_last_will`: raises without a client; passed on only when topic and last will are truthy. */
    method SetLastWillOf(topic: string, lastWill: Payload, retain: Option<bool>) returns (r: Outcome<ConfigException>)
      modifies this`calls
      ensures r.Fail? <==> !hasClient
      ensures calls == old(calls) + if hasClient && topic != [] && PayloadTruthy(lastWill) then [SetLastWill(topic, lastWill, retain)] else []
    {
      if !hasClient {
        return Fail(NoClientConfigured);
      }
      if topic != [] && PayloadTruthy(lastWill) {
        calls := calls + [SetLastWill(topic, lastWill, retain)];
      }
      r := Pass;
    }

    /** `subscribe`: nothing for no topics; otherwise raises without a client, or passes the topics on. */
    method Subscribe(topics: seq<string>) returns (r: Outcome<ConfigException>)
      modifies this`calls
      ensures r.Fail? <==> topics != [] && !hasClient
      ensures calls == old(calls) + if topics != [] && hasClient then [SubscribeTopics(topics)] else []
    {
      r := Pass;
      if topics != [] {
        if !hasClient {
          return Fail(NoClientConfigured);
        }
        calls := calls + [SubscribeTopics(topics)];
      }
    }

    /** `get_messages`: what the client has received, nothing without a client. */
    method GetMessages(received: seq<PahoMessage>) returns (ms: seq<PahoMessage>)
      ensures hasClient ==> ms == received
      ensures !hasClient ==> ms == []
    {
      ms := if hasClient then received else [];
    }

    /** `queue`: raises without a client, otherwise the message joins the end of the queue. */
    method Queue(topic: string, payload: Payload, retain: Option<bool>) returns (r: Outcome<ConfigException>)
      modifies this`messages
      ensures r.Fail? <==> !hasClient
      ensures messages == old(messages) + if hasClient then [ProxyMessage(topic, payload, retain)] else []
    {
      if !hasClient {
        return Fail(NoClientConfigured);
      }
      messages := messages + [ProxyMessage(topic, payload, retain)];
      r := Pass;
    }
  }
}
