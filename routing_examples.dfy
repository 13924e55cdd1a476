/**
 * `validateMessage` on the topology of the unit tests
 * (test/schema.unit.js:487-560): `exchange1` (direct) binds `exchange2` under
 * `routing.key` and the queue under `modus.ponens`; `exchange2` (topic) binds
 * `miss-exchange1` under `miss.routing.key` and `exchange3` under
 * `routing.key`; both fanout exchanges bind the queue.
 */
module RoutingExamples {
  import opened JsValues
  import opened Topology
  import opened TopicPattern
  import opened TopicPatternLaws
  import opened SchemaQueries
  import opened Routing

  /** The shape of the test topology, with its names and patterns left open. */
  predicate LargeSchema(q: Node, m1: Node, e3: Node, e2: Node, e1: Node, key: string, miss: string, other: string) {
    && q.Queue?
    && m1.Exchange? && m1.exchangeType == "fanout" && m1.bindings == [Binding(q, None, None, None)]
    && e3.Exchange? && e3.exchangeType == "fanout" && e3.bindings == [Binding(q, None, None, None)]
    && e2.Exchange? && e2.exchangeType == "topic"
    && e2.bindings == [Binding(m1, None, Some(miss), None), Binding(e3, None, Some(key), None)]
    && e1.Exchange? && e1.exchangeType == "direct"
    && e1.bindings == [Binding(e2, None, Some(key), None), Binding(q, None, Some(other), None)]
    && m1.exchange != "" && e3.exchange != "" && e2.exchange != "" && e1.exchange != ""
  }

  /** A fanout exchange binding only the queue delivers there, whatever the key. */
  lemma FanoutToQueue(x: Node, q: Node, key: string, path: string)
    requires path != "" && q.Queue? && x.Exchange? && x.exchangeType == "fanout" && x.bindings == [Binding(q, None, None, None)]
    ensures Events(x, key, path) == [Deliver(q, path + "." + q.queue + ".messageSchema")]
  {
    assert EventsFrom(x, 1, key, path) == [];
    assert EventsFrom(x, 0, key, path) == [Deliver(q, path + "." + q.queue + ".messageSchema")] + [];
  }

  /** In exchange2, only the `routing.key` binding matches `routing.key`. */
  lemma TopicHop(q: Node, m1: Node, e3: Node, e2: Node, key: string, miss: string, p2: string)
    requires q.Queue? && p2 != ""
    requires e3.Exchange? && e3.exchangeType == "fanout" && e3.bindings == [Binding(q, None, None, None)] && e3.exchange != ""
    requires e2.Exchange? && e2.exchangeType == "topic"
    requires e2.bindings == [Binding(m1, None, Some(miss), None), Binding(e3, None, Some(key), None)]
    requires PlainText(miss) && PlainText(key) && miss != key
    ensures Events(e2, key, p2) == [Deliver(q, p2 + "." + e3.exchange + "." + q.queue + ".messageSchema")]
  {
    var p3 := p2 + "." + e3.exchange;
    var delivery := Deliver(q, p3 + "." + q.queue + ".messageSchema");
    NoWildcardMeaning(miss, key);
    NoWildcardMeaning(key, key);
    assert BindingMatch(e2.exchangeType, e2.bindings[0], key) == Ok(false);
    assert BindingMatch(e2.exchangeType, e2.bindings[1], key) == Ok(true);
    FanoutToQueue(e3, q, key, p3);
    assert DestinationEvents(e3, key, p2) == [delivery];
    assert EventsFrom(e2, 2, key, p2) == [];
    assert EventsFrom(e2, 1, key, p2) == [delivery] + [];
    assert EventsFrom(e2, 0, key, p2) == [] + [delivery];
  }

  /**
   * Routed with `routing.key`, the message reaches the queue exactly once,
   * through exchange2 and exchange3: `miss.routing.key` does not match it.
   */
  lemma RoutingKeyReachesQueueOnce(q: Node, m1: Node, e3: Node, e2: Node, e1: Node, key: string, miss: string, other: string)
    requires LargeSchema(q, m1, e3, e2, e1, key, miss, other)
    requires PlainText(miss) && PlainText(key) && miss != key && other != key
    ensures Events(e1, key, e1.exchange)
         == [Deliver(q, e1.exchange + "." + e2.exchange + "." + e3.exchange + "." + q.queue + ".messageSchema")]
  {
    var p1 := e1.exchange;
    var p2 := p1 + "." + e2.exchange;
    var delivery := Deliver(q, p2 + "." + e3.exchange + "." + q.queue + ".messageSchema");
    TopicHop(q, m1, e3, e2, key, miss, p2);
    assert DestinationEvents(e2, key, p1) == [delivery];
    assert BindingMatch(e1.exchangeType, e1.bindings[1], key) == Ok(false);
    assert EventsFrom(e1, 2, key, p1) == [];
    assert EventsFrom(e1, 1, key, p1) == [] + [];
    assert EventsFrom(e1, 0, key, p1) == [delivery] + [];
  }

  /** Routed with a key no direct binding of exchange1 carries, the message reaches nothing. */
  lemma OtherKeyReachesNothing(q: Node, m1: Node, e3: Node, e2: Node, e1: Node, key: string, miss: string, other: string,
                               routingKey: string)
    requires LargeSchema(q, m1, e3, e2, e1, key, miss, other)
    requires routingKey != key && routingKey != other
    ensures Events(e1, routingKey, e1.exchange) == []
  {
    assert EventsFrom(e1, 2, routingKey, e1.exchange) == [];
    assert EventsFrom(e1, 1, routingKey, e1.exchange) == [] + [];
    assert EventsFrom(e1, 0, routingKey, e1.exchange) == [] + [];
  }

  /**
   * The three outcomes the tests expect from the schema of exchange1:
   * "did not reach any queues" for `foo.bar`; for `routing.key`, the queue's
   * error located at `exchange1.exchange2.exchange3.queue-name.messageSchema`,
   * or the message itself when the queue accepts it.
   */
  lemma LargeSchemaMessages(check: MessageCheck, children: Children.Index, q: Node, m1: Node, e3: Node, e2: Node, e1: Node,
                            key: string, miss: string, other: string, unrouted: string, message: Json)
    requires LargeSchema(q, m1, e3, e2, e1, key, miss, other)
    requires PlainText(miss) && PlainText(key) && miss != key && other != key
    requires unrouted != key && unrouted != other
    ensures var s := Schema(Single(e1), children);
            Verdict(check, s, WithExchange(Some(e1.exchange), unrouted, message)) == Fail(PlainError, NotReached)
    ensures var s := Schema(Single(e1), children);
            var path := e1.exchange + "." + e2.exchange + "." + e3.exchange + "." + q.queue + ".messageSchema";
            Verdict(check, s, WithExchange(Some(e1.exchange), key, message)) ==
              match check(Some(q.messageSchema), message)
              case Some(e) => Err(Located(e, path))
              case None => Ok(message)
  {
    var s := Schema(Single(e1), children);
    assert GetExchangeByName(s, e1.exchange) == Some(e1);
    OtherKeyReachesNothing(q, m1, e3, e2, e1, key, miss, other, unrouted);
    ExchangeWalkMeaning(check, e1, unrouted, message);
    RoutingKeyReachesQueueOnce(q, m1, e3, e2, e1, key, miss, other);
    ExchangeWalkMeaning(check, e1, key, message);
    var events := Events(e1, key, e1.exchange);
    assert events[1..] == [];
  }
}
