/**
 * Message validation against a topology (lib/schema.js:335-428): the message
 * is sent to an exchange with a routing key (or straight to a queue), follows
 * every binding that matches, and is checked against the message schema of
 * every queue it reaches. One `_state` object, shared by the whole walk,
 * records whether any queue was reached.
 *
 * The message-schema check itself (lib/json-validator.js) is a parameter.
 */
module Routing {
  import opened JsValues
  import opened Topology
  import opened Children
  import opened SchemaQueries
  import opened TopicPattern

  /**
   * `jsonValidator(queue.messageSchema, message)`: the error it throws, or
   * `None`; the schema is `None` when the queue has no `messageSchema`.
   */
  type MessageCheck = (Option<Json>, Json) -> Option<Error>

  const NotReached := "message did not reach any queues"

  /** What `topicPatternTest(undefined, key)` throws: `undefined.replace(..)`. */
  const NoPattern := Error(TypeError, Text("Cannot read properties of undefined (reading 'replace')"))

  /** `dest.exchange` is truthy: the destination is walked as an exchange, otherwise as a queue. */
  predicate WalkedAsExchange(d: Node) {
    d.Exchange? && d.exchange != ""
  }

  /** `queue.queue` in a `+`: an exchange named `''` has no `queue` property. */
  function QueueName(q: Node): string {
    if q.Queue? then q.queue else "undefined"
  }

  /** `queue.messageSchema` */
  function MessageSchemaOf(q: Node): Option<Json> {
    if q.Queue? then Some(q.messageSchema) else None
  }

  /** The `currPath` a queue's errors are reported under. */
  function QueuePath(q: Node, parentPath: Option<string>): string {
    JoinPath(parentPath, QueueName(q)) + ".messageSchema"
  }

  /** `err.message = err.message + ' (' + currPath + ')'`: the same error, its message located. */
  function Located(e: Error, path: string): (r: Error)
    ensures r.kind == e.kind
    ensures r.message == Text(Show(e.message) + " (" + path + ")")
  {
    Error(e.kind, Text(Show(e.message) + " (" + path + ")"))
  }

  /**
   * `bindingMatch` (lib/schema.js:383-385): a direct binding matches a key
   * equal to its pattern, a topic binding a key its pattern matches, and a
   * fanout binding every key. A topic binding without a pattern throws.
   */
  function BindingMatch(exchangeType: string, b: Binding, routingKey: string): (r: Result<bool>)
    ensures r.Err? <==> exchangeType == "topic" && b.routingPattern.None?
    ensures r.Err? ==> r.error == NoPattern
    ensures r == Ok(true) <==>
      (exchangeType == "direct" && b.routingPattern == Some(routingKey)) ||
      (exchangeType == "topic" && b.routingPattern.Some? && TopicPatternTest(b.routingPattern.value, routingKey)) ||
      exchangeType == "fanout"
  {
    if exchangeType == "direct" && b.routingPattern == Some(routingKey) then Ok(true)
    else if exchangeType == "topic" then
      if b.routingPattern.None? then Err(NoPattern)
      else Ok(TopicPatternTest(b.routingPattern.value, routingKey))
    else Ok(exchangeType == "fanout")
  }

  // ---------------------------------------------------------------------------
  // The walk, as the source performs it
  // ---------------------------------------------------------------------------

  /** The error a walk threw, if any, and `_state.noDestinationQueuesFound` after it. */
  datatype Walk = Walk(error: Option<Error>, noDestinationQueuesFound: bool)

  /** `_queueValidateMessage(queue, message, parentPath, _state)` */
  function QueueWalk(check: MessageCheck, q: Node, message: Json, parentPath: Option<string>): Walk {
    match check(MessageSchemaOf(q), message)
    case None => Walk(None, false)
    case Some(e) => Walk(Some(Located(e, QueuePath(q, parentPath))), false)
  }

  /**
   * `_exchangeValidateMessage(exchange, routingKey, message, parentPath, _state)`,
   * started with the flag `noneFound`.
   */
  function ExchangeWalk(check: MessageCheck, x: Node, routingKey: string, message: Json,
                        parentPath: Option<string>, noneFound: bool): Walk
    requires x.Exchange?
    decreases x, 2
  {
    var w := BindingsWalk(check, x, 0, routingKey, message, JoinPath(parentPath, x.exchange), noneFound);
    if w.error.None? && !Truthy(parentPath) && w.noDestinationQueuesFound then
      Walk(Some(Error(PlainError, Text(NotReached))), true)
    else
      w
  }

  /** The `forEach` over `x.bindings[i..]`; the first error thrown ends it. */
  function BindingsWalk(check: MessageCheck, x: Node, i: nat, routingKey: string, message: Json,
                        currPath: string, noneFound: bool): Walk
    requires x.Exchange? && i <= |x.bindings|
    decreases x, 1, |x.bindings| - i
  {
    if i == |x.bindings| then Walk(None, noneFound)
    else
      match BindingMatch(x.exchangeType, x.bindings[i], routingKey)
      case Err(e) => Walk(Some(e), noneFound)
      case Ok(matched) =>
        if !matched then BindingsWalk(check, x, i + 1, routingKey, message, currPath, noneFound)
        else
          var w := DestinationWalk(check, x.bindings[i].destination, routingKey, message, currPath, noneFound);
          if w.error.Some? then w
          else BindingsWalk(check, x, i + 1, routingKey, message, currPath, w.noDestinationQueuesFound)
  }

  /** One matching binding's destination, below the exchange path `currPath`. */
  function DestinationWalk(check: MessageCheck, d: Node, routingKey: string, message: Json,
                           currPath: string, noneFound: bool): Walk
    decreases d, 3
  {
    if WalkedAsExchange(d) then ExchangeWalk(check, d, routingKey, message, Some(currPath), noneFound)
    else QueueWalk(check, d, message, Some(currPath))
  }

  /** One step of the `forEach`: an unmatched binding is skipped. */
  lemma BindingsWalkSkip(check: MessageCheck, x: Node, i: nat, routingKey: string, message: Json, currPath: string, noneFound: bool)
    requires x.Exchange? && i < |x.bindings| && BindingMatch(x.exchangeType, x.bindings[i], routingKey) == Ok(false)
    ensures BindingsWalk(check, x, i, routingKey, message, currPath, noneFound)
         == BindingsWalk(check, x, i + 1, routingKey, message, currPath, noneFound)
  {
  }

  /** One step of the `forEach`: a matched binding's destination is walked, and an error ends the walk. */
  lemma BindingsWalkFollow(check: MessageCheck, x: Node, i: nat, routingKey: string, message: Json, currPath: string,
                           noneFound: bool, w: Walk)
    requires x.Exchange? && i < |x.bindings| && BindingMatch(x.exchangeType, x.bindings[i], routingKey) == Ok(true)
    requires w == DestinationWalk(check, x.bindings[i].destination, routingKey, message, currPath, noneFound)
    ensures BindingsWalk(check, x, i, routingKey, message, currPath, noneFound)
         == if w.error.Some? then w else BindingsWalk(check, x, i + 1, routingKey, message, currPath, w.noDestinationQueuesFound)
  {
  }

  /** How `validateMessage` is called: `(exchangeName, routingKey, message)` or `(routingKey, message)`. */
  datatype MessageCall =
    | WithExchange(exchangeName: Option<string>, routingKey: string, message: Json)
    | WithoutExchange(routingKey: string, message: Json)

  function QueueMissing(name: string): string {
    "queue with name \"" + name + "\" does not exist"
  }

  function ExchangeMissing(name: string): string {
    "exchange with name \"" + name + "\" does not exist"
  }

  /** The exchange name after `exchangeName = exchangeName || ''`. */
  function ExchangeNameOf(call: MessageCall): string {
    if call.WithExchange? && call.exchangeName.Some? then call.exchangeName.value else ""
  }

  /** `schema.validateMessage(..)`: the message back, or the error thrown. */
  function Verdict(check: MessageCheck, s: Schema, call: MessageCall): (r: Result<Json>)
    ensures r.Ok? ==> r.value == call.message
  {
    var name := ExchangeNameOf(call);
    if name == "" then
      match GetQueueByName(s, call.routingKey)
      case None => Fail(PlainError, QueueMissing(call.routingKey))
      case Some(q) =>
        var w := QueueWalk(check, q, call.message, None);
        if w.error.Some? then Err(w.error.value) else Ok(call.message)
    else
      match GetExchangeByName(s, name)
      case None => Fail(PlainError, ExchangeMissing(name))
      case Some(x) =>
        if !x.Exchange? then Err(Error(TypeError, Text("Cannot read properties of undefined (reading 'forEach')")))
        else
          var w := ExchangeWalk(check, x, call.routingKey, call.message, None, true);
          if w.error.Some? then Err(w.error.value) else Ok(call.message)
  }

  // ---------------------------------------------------------------------------
  // An independent description: the queues a message reaches, in order
  // ---------------------------------------------------------------------------

  /** A step of the walk: a queue reached (with its error path), or an error thrown by a binding. */
  datatype Event = Deliver(queue: Node, path: string) | Fault(error: Error)

  /** Everything the message meets below exchange `x`, whose own path is `path`, depth first. */
  function Events(x: Node, routingKey: string, path: string): seq<Event>
    requires x.Exchange?
    decreases x, 2
  {
    EventsFrom(x, 0, routingKey, path)
  }

  function EventsFrom(x: Node, i: nat, routingKey: string, path: string): seq<Event>
    requires x.Exchange? && i <= |x.bindings|
    decreases x, 1, |x.bindings| - i
  {
    if i == |x.bindings| then []
    else
      var here :=
        match BindingMatch(x.exchangeType, x.bindings[i], routingKey)
        case Err(e) => [Fault(e)]
        case Ok(matched) =>
          if matched then DestinationEvents(x.bindings[i].destination, routingKey, path) else [];
      here + EventsFrom(x, i + 1, routingKey, path)
  }

  function DestinationEvents(d: Node, routingKey: string, path: string): seq<Event>
    decreases d, 3
  {
    if WalkedAsExchange(d) then Events(d, routingKey, path + "." + d.exchange)
    else [Deliver(d, QueuePath(d, Some(path)))]
  }

  /** The first event that fails: a binding's error, or a queue whose check rejects the message. */
  function FirstFailure(check: MessageCheck, message: Json, events: seq<Event>): Option<Error>
    decreases |events|
  {
    if events == [] then None
    else
      match events[0]
      case Fault(e) => Some(e)
      case Deliver(q, p) =>
        match check(MessageSchemaOf(q), message)
        case Some(e) => Some(Located(e, p))
        case None => FirstFailure(check, message, events[1..])
  }

  /** Whether the walk reaches a queue before it stops: the first event is a delivery. */
  predicate FirstDelivers(events: seq<Event>) {
    events != [] && events[0].Deliver?
  }

  lemma {:induction false} FirstFailureAppend(check: MessageCheck, message: Json, a: seq<Event>, b: seq<Event>)
    ensures FirstFailure(check, message, a + b) ==
      if FirstFailure(check, message, a).Some? then FirstFailure(check, message, a) else FirstFailure(check, message, b)
    decreases |a|
  {
    if a == [] {
      assert a + b == b;
    } else {
      assert (a + b)[0] == a[0];
      assert (a + b)[1..] == a[1..] + b;
      FirstFailureAppend(check, message, a[1..], b);
    }
  }

  /** Events with no failure among them are all deliveries. */
  lemma NoFailureDelivers(check: MessageCheck, message: Json, events: seq<Event>)
    requires events != [] && FirstFailure(check, message, events).None?
    ensures FirstDelivers(events)
  {
  }

  /** Below the top, the walk throws the first failure in event order and clears the flag iff the first event delivers. */
  lemma {:induction false} BindingsWalkEvents(check: MessageCheck, x: Node, i: nat, routingKey: string, message: Json,
                                             path: string, noneFound: bool)
    requires x.Exchange? && i <= |x.bindings| && path != ""
    ensures BindingsWalk(check, x, i, routingKey, message, path, noneFound) ==
      Walk(FirstFailure(check, message, EventsFrom(x, i, routingKey, path)),
           noneFound && !FirstDelivers(EventsFrom(x, i, routingKey, path)))
    decreases x, 1, |x.bindings| - i
  {
    if i < |x.bindings| {
      var d := x.bindings[i].destination;
      var rest := EventsFrom(x, i + 1, routingKey, path);
      match BindingMatch(x.exchangeType, x.bindings[i], routingKey)
      case Err(e) =>
      case Ok(matched) =>
        if !matched {
          BindingsWalkEvents(check, x, i + 1, routingKey, message, path, noneFound);
          assert EventsFrom(x, i, routingKey, path) == [] + rest;
          assert [] + rest == rest;
        } else {
          var here := DestinationEvents(d, routingKey, path);
          assert EventsFrom(x, i, routingKey, path) == here + rest;
          DestinationWalkEvents(check, d, routingKey, message, path, noneFound);
          FirstFailureAppend(check, message, here, rest);
          var w := DestinationWalk(check, d, routingKey, message, path, noneFound);
          if w.error.None? {
            BindingsWalkEvents(check, x, i + 1, routingKey, message, path, w.noDestinationQueuesFound);
            if here == [] {
              assert here + rest == rest;
            } else {
              NoFailureDelivers(check, message, here);
              assert (here + rest)[0] == here[0];
            }
          } else {
            assert (here + rest)[0] == here[0];
          }
        }
    }
  }

  lemma {:induction false} DestinationWalkEvents(check: MessageCheck, d: Node, routingKey: string, message: Json,
                                                 path: string, noneFound: bool)
    requires path != ""
    ensures DestinationWalk(check, d, routingKey, message, path, noneFound) ==
      Walk(FirstFailure(check, message, DestinationEvents(d, routingKey, path)),
           noneFound && !FirstDelivers(DestinationEvents(d, routingKey, path)))
    decreases d, 3
  {
    if WalkedAsExchange(d) {
      BindingsWalkEvents(check, d, 0, routingKey, message, path + "." + d.exchange, noneFound);
    } else {
      assert DestinationEvents(d, routingKey, path)[1..] == [];
    }
  }

  /**
   * Sent to a named exchange, a message is checked against every queue it
   * reaches, depth first in binding order; the first failure is thrown, with
   * the path of the queue it came from. "message did not reach any queues"
   * is thrown exactly when nothing failed and no queue was reached.
   */
  lemma ExchangeWalkMeaning(check: MessageCheck, x: Node, routingKey: string, message: Json)
    requires x.Exchange? && x.exchange != ""
    ensures var events := Events(x, routingKey, x.exchange);
            ExchangeWalk(check, x, routingKey, message, None, true).error ==
              if FirstFailure(check, message, events).Some? then FirstFailure(check, message, events)
              else if events == [] then Some(Error(PlainError, Text(NotReached)))
              else None
  {
    var events := Events(x, routingKey, x.exchange);
    BindingsWalkEvents(check, x, 0, routingKey, message, x.exchange, true);
    if events != [] && FirstFailure(check, message, events).None? {
      NoFailureDelivers(check, message, events);
    }
  }

  // ---------------------------------------------------------------------------
  // validateMessage
  // ---------------------------------------------------------------------------

  /** The two-argument form is the three-argument form with a missing or empty exchange name. */
  lemma TwoArgumentForm(check: MessageCheck, s: Schema, routingKey: string, message: Json)
    ensures Verdict(check, s, WithoutExchange(routingKey, message)) == Verdict(check, s, WithExchange(None, routingKey, message))
    ensures Verdict(check, s, WithoutExchange(routingKey, message)) == Verdict(check, s, WithExchange(Some(""), routingKey, message))
  {
  }

  /**
   * Sent straight to a queue of a built schema: an error when the topology has
   * no queue of that name; otherwise the check of the queue `getQueueByName`
   * returns, located at `<queue>.messageSchema`. That queue is the one stored
   * first under the name (the root itself when the root is that queue), and
   * it is listed by `getQueues`. Same-named queues may differ in `messageSchema`.
   */
  lemma DirectToQueue(check: MessageCheck, root: Root, call: MessageCall)
    requires Build(root).Ok? && ExchangeNameOf(call) == ""
    ensures var s, name := Build(root).value, call.routingKey;
            var r := Verdict(check, s, call);
            (name !in QueueNames(RootNodes(root)) ==> r == Fail(PlainError, QueueMissing(name))) &&
            (name in QueueNames(RootNodes(root)) ==>
              Entry(s.children, QueueSlot(name)).Some? &&
              var q := Entry(s.children, QueueSlot(name)).value;
              q.Queue? && q.queue == name && q in RootNodes(root) && q in GetQueues(s) &&
              (root.Single? && root.node.Queue? && root.node.queue == name ==> q == root.node) &&
              r == (match check(Some(q.messageSchema), call.message)
                    case None => Ok(call.message)
                    case Some(e) => Err(Located(e, name + ".messageSchema"))))
  {
    QueueStoredFirst(root, call.routingKey);
  }

  /**
   * Sent to a named exchange of a built schema: an error when the topology
   * has no exchange of that name; otherwise the walk of `ExchangeWalkMeaning`
   * from the exchange `getExchangeByName` returns: the one stored first under
   * the name (the root itself when the root is that exchange), listed by
   * `getExchanges`. Same-named exchanges may differ in `type`.
   */
  lemma ToExchange(check: MessageCheck, root: Root, call: MessageCall)
    requires Build(root).Ok? && ExchangeNameOf(call) != ""
    ensures var s, name := Build(root).value, ExchangeNameOf(call);
            var r := Verdict(check, s, call);
            (name !in ExchangeNames(RootNodes(root)) ==> r == Fail(PlainError, ExchangeMissing(name))) &&
            (name in ExchangeNames(RootNodes(root)) ==>
              Entry(s.children, ExchangeSlot(name)).Some? &&
              var x := Entry(s.children, ExchangeSlot(name)).value;
              x.Exchange? && x.exchange == name && x in RootNodes(root) && x in GetExchanges(s) &&
              (root.Single? && root.node.Exchange? && root.node.exchange == name ==> x == root.node) &&
              var events := Events(x, call.routingKey, name);
              r == (if FirstFailure(check, call.message, events).Some? then Err(FirstFailure(check, call.message, events).value)
                    else if events == [] then Fail(PlainError, NotReached)
                    else Ok(call.message)))
  {
    var x := GetExchangeByName(Build(root).value, ExchangeNameOf(call));
    ExchangeStoredFirst(root, ExchangeNameOf(call));
    if x.Some? {
      ExchangeWalkMeaning(check, x.value, call.routingKey, call.message);
    }
  }

  // ---------------------------------------------------------------------------
  // The walk as the source runs it, with one shared `_state`
  // ---------------------------------------------------------------------------

  /** The `_state` object of lib/schema.js:372-374. */
  class RoutingState {
    var noDestinationQueuesFound: bool

    constructor ()
      ensures noDestinationQueuesFound
    {
      noDestinationQueuesFound := true;
    }
  }

  /** `_queueValidateMessage` (lib/schema.js:410-428). */
  method QueueValidateMessage(check: MessageCheck, queue: Node, message: Json, parentPath: Option<string>,
                              state: RoutingState) returns (err: Option<Error>)
    modifies state
    ensures Walk(err, state.noDestinationQueuesFound) == QueueWalk(check, queue, message, parentPath)
  {
    var currPath := JoinPath(parentPath, QueueName(queue));
    currPath := currPath + ".messageSchema";
    state.noDestinationQueuesFound := false;
    err := check(MessageSchemaOf(queue), message);
    if err.Some? {
      var e := err.value;
      err := Some(Error(e.kind, Text(Show(e.message) + " (" + currPath + ")")));
    }
  }

  /** `_exchangeValidateMessage` (lib/schema.js:371-404). */
  method ExchangeValidateMessage(check: MessageCheck, exchange: Node, routingKey: string, message: Json,
                                 parentPath: Option<string>, state: RoutingState) returns (err: Option<Error>)
    requires exchange.Exchange?
    modifies state
    ensures Walk(err, state.noDestinationQueuesFound)
         == ExchangeWalk(check, exchange, routingKey, message, parentPath, old(state.noDestinationQueuesFound))
    decreases exchange, 2
  {
    var currPath := JoinPath(parentPath, exchange.exchange);
    err := BindingsValidateMessage(check, exchange, routingKey, message, currPath, state);
    if err.None? && !Truthy(parentPath) && state.noDestinationQueuesFound {
      err := Some(Error(PlainError, Text(NotReached)));
    }
  }

  /** The `exchange.bindings.forEach(..)` of lib/schema.js:381-396, below the exchange path `currPath`. */
  method BindingsValidateMessage(check: MessageCheck, exchange: Node, routingKey: string, message: Json,
                                 currPath: string, state: RoutingState) returns (err: Option<Error>)
    requires exchange.Exchange?
    modifies state
    ensures Walk(err, state.noDestinationQueuesFound)
         == BindingsWalk(check, exchange, 0, routingKey, message, currPath, old(state.noDestinationQueuesFound))
    decreases exchange, 1
  {
    var i := 0;
    while i < |exchange.bindings|
      invariant 0 <= i <= |exchange.bindings|
      invariant BindingsWalk(check, exchange, 0, routingKey, message, currPath, old(state.noDestinationQueuesFound))
             == BindingsWalk(check, exchange, i, routingKey, message, currPath, state.noDestinationQueuesFound)
    {
      err := BindingValidateMessage(check, exchange, i, routingKey, message, currPath, state);
      if err.Some? {
        return;
      }
      i := i + 1;
    }
    err := None;
  }

  /**
   * One binding of the `forEach` (lib/schema.js:382-395): an error ends the
   * walk; otherwise the walk goes on with the next binding.
   */
  method BindingValidateMessage(check: MessageCheck, exchange: Node, i: nat, routingKey: string, message: Json,
                                currPath: string, state: RoutingState) returns (err: Option<Error>)
    requires exchange.Exchange? && i < |exchange.bindings|
    modifies state
    ensures err.Some? ==>
              Walk(err, state.noDestinationQueuesFound)
              == BindingsWalk(check, exchange, i, routingKey, message, currPath, old(state.noDestinationQueuesFound))
    ensures err.None? ==>
              BindingsWalk(check, exchange, i + 1, routingKey, message, currPath, state.noDestinationQueuesFound)
              == BindingsWalk(check, exchange, i, routingKey, message, currPath, old(state.noDestinationQueuesFound))
    decreases exchange, 0
  {
    var binding := exchange.bindings[i];
    var bindingMatch := BindingMatch(exchange.exchangeType, binding, routingKey);
    if bindingMatch.Err? {
      return Some(bindingMatch.error);
    }
    if bindingMatch.value {
      err := DestinationValidateMessage(check, binding.destination, routingKey, message, currPath, state);
      BindingsWalkFollow(check, exchange, i, routingKey, message, currPath, old(state.noDestinationQueuesFound),
                         Walk(err, state.noDestinationQueuesFound));
    } else {
      err := None;
      BindingsWalkSkip(check, exchange, i, routingKey, message, currPath, state.noDestinationQueuesFound);
    }
  }

  /** `if (dest.exchange) .. else ..` (lib/schema.js:389-395): a matched destination, below `currPath`. */
  method DestinationValidateMessage(check: MessageCheck, dest: Node, routingKey: string, message: Json,
                                    currPath: string, state: RoutingState) returns (err: Option<Error>)
    modifies state
    ensures Walk(err, state.noDestinationQueuesFound)
         == DestinationWalk(check, dest, routingKey, message, currPath, old(state.noDestinationQueuesFound))
    decreases dest, 3
  {
    if WalkedAsExchange(dest) {
      err := ExchangeValidateMessage(check, dest, routingKey, message, Some(currPath), state);
    } else {
      err := QueueValidateMessage(check, dest, message, Some(currPath), state);
    }
  }

  /** `Schema.prototype.validateMessage` (lib/schema.js:335-364). */
  method ValidateMessage(check: MessageCheck, schema: Schema, call: MessageCall) returns (r: Result<Json>)
    ensures r == Verdict(check, schema, call)
  {
    var exchangeName: Option<string>, routingKey, message;
    match call {
      case WithoutExchange(key, m) =>
        exchangeName, routingKey, message := None, key, m;
      case WithExchange(name, key, m) =>
        exchangeName, routingKey, message := name, key, m;
    }
    var name := if exchangeName.Some? then exchangeName.value else "";
    var state := new RoutingState();
    if name == "" {
      var queue := GetQueueByName(schema, routingKey);
      if queue.None? {
        return Fail(PlainError, QueueMissing(routingKey));
      }
      var err := QueueValidateMessage(check, queue.value, message, None, state);
      if err.Some? {
        return Err(err.value);
      }
    } else {
      var exchange := GetExchangeByName(schema, name);
      if exchange.None? {
        return Fail(PlainError, ExchangeMissing(name));
      }
      if !exchange.value.Exchange? {
        return Err(Error(TypeError, Text("Cannot read properties of undefined (reading 'forEach')")));
      }
      var err := ExchangeValidateMessage(check, exchange.value, routingKey, message, None, state);
      if err.Some? {
        return Err(err.value);
      }
    }
    return Ok(message);
  }
}
