/**
 * The name indexes of lib/schema.js are plain object literals (`{}`), and
 * they are read with `byName[name]`. For a name that `Object.prototype`
 * already defines, such as `constructor` or `toString`, that read finds the
 * inherited function rather than `undefined`. Such names are legal queue and
 * exchange names: they match the name pattern `^[0-9A-Za-z-_.:]*$` of
 * lib/json-schemas/queue.js:15 and lib/generate-exchange-json-schema.js:27.
 *
 * This module models the lookups as written and exhibits what goes wrong.
 * The rest of the project reads the indexes as maps (`Children.PushQueue`,
 * `Children.PushExchange`, `SchemaQueries.GetQueueByName`,
 * `SchemaQueries.GetExchangeByName`), which is what the code evidently intends.
 */
module PrototypeLookup {
  import opened JsValues
  import opened Topology
  import opened Children
  import opened SchemaQueries

  /** The members of `Object.prototype` that are functions and whose names are legal topology names. */
  const InheritedNames: set<string> := {
    "constructor", "hasOwnProperty", "isPrototypeOf", "propertyIsEnumerable",
    "toLocaleString", "toString", "valueOf",
    "__defineGetter__", "__defineSetter__", "__lookupGetter__", "__lookupSetter__"
  }

  /** `byName[name]` finds an inherited function: truthy, with no `options` and no `bindings`. */
  predicate FindsInherited(byName: map<string, Node>, name: string) {
    name !in byName && name in InheritedNames
  }

  /** `pushQueue` as written (lib/schema.js:222-237). */
  function PushQueueAsWritten(idx: Index, q: Node): Result<Index> {
    if FindsInherited(idx.queuesByName, Name(q)) then
      // `identical.options || {}` is `{}`
      if OptionsOrEmpty(q.options) == JObj(map[]) then Ok(idx)
      else Fail(AssertionError, QueueOptionsMismatch(Name(q)))
    else
      PushQueue(idx, q)
  }

  /** `pushExchange` as written (lib/schema.js:196-216). */
  function PushExchangeAsWritten(idx: Index, x: Node): Result<Index>
    requires x.Exchange?
  {
    if FindsInherited(idx.exchangesByName, x.exchange) then
      if OptionsOrEmpty(x.options) != JObj(map[]) then Fail(AssertionError, ExchangeOptionsMismatch(x.exchange))
      // `identical.bindings` is `undefined`, never deep-equal to an array
      else Fail(AssertionError, ExchangeBindingsMismatch(x.exchange))
    else
      PushExchange(idx, x)
  }

  /** What `new Schema(fn)` throws for a function: it is neither an object nor an array. */
  const NotObjectOrArray := Error(TypeError, Text("'value' must be an object or array"))

  /**
   * `getQueueByName` as written (lib/schema.js:320-328): the root itself, or
   * `_queuesByName[name]`. As written, no queue with an inherited name is
   * ever indexed (`PushQueueAsWritten` drops it or throws), so such a name
   * finds the inherited function, and `new Schema(fn)` throws.
   */
  function GetQueueByNameAsWritten(s: Schema, name: string): Result<Option<Node>> {
    if s.root.Single? && s.root.node.Queue? && s.root.node.queue == name then Ok(Some(s.root.node))
    else if name in InheritedNames then Err(NotObjectOrArray)
    else Ok(GetQueueByName(s, name))
  }

  /** `getExchangeByName` as written (lib/schema.js:307-315), likewise. */
  function GetExchangeByNameAsWritten(s: Schema, name: string): Result<Option<Node>> {
    if s.root.Single? && s.root.node.Exchange? && s.root.node.exchange == name then Ok(Some(s.root.node))
    else if name in InheritedNames then Err(NotObjectOrArray)
    else Ok(GetExchangeByName(s, name))
  }

  // ---------------------------------------------------------------------------
  // The discrepancies
  // ---------------------------------------------------------------------------

  /**
   * The first exchange named `constructor` is reported as a duplicate: as
   * written, `pushExchange` throws "mismatched bindings" (or "mismatched
   * options"), while the map-based push indexes it.
   */
  lemma InheritedExchangeRejected(x: Node)
    requires x.Exchange? && x.exchange in InheritedNames
    ensures PushExchangeAsWritten(EmptyIndex, x).Err?
    ensures PushExchange(EmptyIndex, x) == Ok(Index([], [x], map[], map[x.exchange := x]))
  {
    assert EmptyIndex.exchanges + [x] == [x];
    assert EmptyIndex.exchangesByName[x.exchange := x] == map[x.exchange := x];
  }

  /**
   * A queue named `constructor` without options is silently dropped: as
   * written, `pushQueue` leaves the children unchanged, so the queue is
   * neither listed nor indexed; the map-based push adds it.
   */
  lemma InheritedQueueDropped(q: Node)
    requires q.Queue? && q.queue in InheritedNames && q.options.None?
    ensures PushQueueAsWritten(EmptyIndex, q) == Ok(EmptyIndex)
    ensures PushQueue(EmptyIndex, q) == Ok(Index([q], [], map[q.queue := q], map[]))
  {
    assert EmptyIndex.queues + [q] == [q];
    assert EmptyIndex.queuesByName[q.queue := q] == map[q.queue := q];
  }

  /**
   * Looking up `constructor` in a built schema without such a queue throws a
   * `TypeError` as written, where the method promises `undefined`.
   */
  lemma InheritedQueueLookupThrows(root: Root, name: string)
    requires Build(root).Ok? && name in InheritedNames && name !in QueueNames(RootNodes(root))
    ensures GetQueueByNameAsWritten(Build(root).value, name) == Err(NotObjectOrArray)
    ensures GetQueueByName(Build(root).value, name) == None
  {
    QueueLookup(root, name);
  }

  /** Likewise for exchanges. */
  lemma InheritedExchangeLookupThrows(root: Root, name: string)
    requires Build(root).Ok? && name in InheritedNames && name !in ExchangeNames(RootNodes(root))
    ensures GetExchangeByNameAsWritten(Build(root).value, name) == Err(NotObjectOrArray)
    ensures GetExchangeByName(Build(root).value, name) == None
  {
    ExchangeLookup(root, name);
  }

  /** Away from inherited names, the pushes and lookups as written are the map-based ones. */
  lemma AsWrittenElsewhere(idx: Index, n: Node, s: Schema, name: string)
    requires Name(n) !in InheritedNames && name !in InheritedNames
    ensures n.Queue? ==> PushQueueAsWritten(idx, n) == PushQueue(idx, n)
    ensures n.Exchange? ==> PushExchangeAsWritten(idx, n) == PushExchange(idx, n)
    ensures GetQueueByNameAsWritten(s, name) == Ok(GetQueueByName(s, name))
    ensures GetExchangeByNameAsWritten(s, name) == Ok(GetExchangeByName(s, name))
  {
  }
}
