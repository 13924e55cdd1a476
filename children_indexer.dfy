/**
 * `Schema._getChildren` (lib/schema.js:151-240) as the source runs it: one
 * `children` object whose lists and maps `pushQueue` and `pushExchange`
 * update in place, filled by a walk over the bindings. Every exchange
 * destination becomes a `SubSchema`, which fills a fresh `children` object of
 * its own first. Each method is proved to compute what `Children` specifies.
 */
module ChildrenIndexer {
  import opened JsValues
  import opened Topology
  import opened Children

  /** The error a method threw, read together with the state it left. */
  function Outcome(err: Option<Error>, state: Index): Result<Index> {
    if err.Some? then Err(err.value) else Ok(state)
  }

  /** The `children` object of lib/schema.js:152-157. */
  class Indexer {
    var queues: seq<Node>
    var exchanges: seq<Node>
    var queuesByName: map<string, Node>
    var exchangesByName: map<string, Node>

    function State(): Index
      reads this
    {
      Index(queues, exchanges, queuesByName, exchangesByName)
    }

    constructor ()
      ensures State() == EmptyIndex
    {
      queues, exchanges := [], [];
      queuesByName, exchangesByName := map[], map[];
    }

    /** `pushQueue` (lib/schema.js:222-237): a throw leaves the object as it was. */
    method PushQueue(queue: Node) returns (err: Option<Error>)
      modifies this
      ensures Children.PushQueue(old(State()), queue) == Outcome(err, State())
      ensures err.Some? ==> State() == old(State())
    {
      err := None;
      var name := Name(queue);
      if name in queuesByName {
        var identical := queuesByName[name];
        if OptionsOrEmpty(identical.options) != OptionsOrEmpty(queue.options) {
          err := Some(Error(AssertionError, Text(QueueOptionsMismatch(name))));
        }
      } else {
        queues := queues + [queue];
        queuesByName := queuesByName[name := queue];
      }
    }

    /** `pushExchange` (lib/schema.js:196-216): a throw leaves the object as it was. */
    method PushExchange(exchange: Node) returns (err: Option<Error>)
      modifies this
      ensures Children.PushExchange(old(State()), exchange) == Outcome(err, State())
      ensures err.Some? ==> State() == old(State())
    {
      err := None;
      var name := Name(exchange);
      if name in exchangesByName {
        var identical := exchangesByName[name];
        if OptionsOrEmpty(identical.options) != OptionsOrEmpty(exchange.options) {
          err := Some(Error(AssertionError, Text(ExchangeOptionsMismatch(name))));
          assert Children.PushExchange(State(), exchange) == Outcome(err, State());
        } else if BindingsOf(identical) != BindingsOf(exchange) {
          err := Some(Error(AssertionError, Text(ExchangeBindingsMismatch(name))));
          assert Children.PushExchange(State(), exchange) == Outcome(err, State());
        } else {
          assert Children.PushExchange(State(), exchange) == Ok(State());
        }
      } else {
        ghost var before := State();
        exchanges := exchanges + [exchange];
        exchangesByName := exchangesByName[name := exchange];
        assert Children.PushExchange(before, exchange) == Ok(State());
      }
    }

    /** `queues.forEach(pushQueue)`. */
    method PushQueues(qs: seq<Node>) returns (err: Option<Error>)
      modifies this
      ensures Children.PushQueues(old(State()), qs) == Outcome(err, State())
    {
      var i := 0;
      while i < |qs|
        invariant 0 <= i <= |qs|
        invariant Children.PushQueues(old(State()), qs) == Children.PushQueues(State(), qs[i..])
      {
        assert qs[i..][1..] == qs[i + 1..];
        err := PushQueue(qs[i]);
        if err.Some? {
          return;
        }
        i := i + 1;
      }
      err := None;
    }

    /** `exchanges.forEach(pushExchange)`. */
    method PushExchanges(xs: seq<Node>) returns (err: Option<Error>)
      modifies this
      ensures Children.PushExchanges(old(State()), xs) == Outcome(err, State())
    {
      var i := 0;
      while i < |xs|
        invariant 0 <= i <= |xs|
        invariant Children.PushExchanges(old(State()), xs) == Children.PushExchanges(State(), xs[i..])
      {
        assert xs[i..][1..] == xs[i + 1..];
        err := PushExchange(xs[i]);
        if err.Some? {
          return;
        }
        i := i + 1;
      }
      err := None;
    }

    /** A sub-schema's `_queues`, then its `_exchanges`, then (if given) one more exchange. */
    method PushSubSchema(sub: Index, last: Option<Node>) returns (err: Option<Error>)
      modifies this
      ensures MergeInto(old(State()), sub, last) == Outcome(err, State())
    {
      err := PushQueues(sub.queues);
      if err.Some? {
        return;
      }
      err := PushExchanges(sub.exchanges);
      if err.Some? || last.None? {
        return;
      }
      err := PushExchange(last.value);
    }

    /** The `forEach(schemas, ..)` merge (lib/schema.js:160-165): each sub-schema's queues, then its exchanges. */
    method PushSubSchemas(subs: seq<Index>) returns (err: Option<Error>)
      modifies this
      ensures MergeAll(old(State()), subs) == Outcome(err, State())
    {
      var k := 0;
      while k < |subs|
        invariant 0 <= k <= |subs|
        invariant MergeAll(old(State()), subs) == MergeAll(State(), subs[k..])
      {
        assert subs[k..][1..] == subs[k + 1..];
        err := PushSubSchema(subs[k], None);
        if err.Some? {
          return;
        }
        k := k + 1;
      }
      err := None;
    }

    /**
     * `indexChildren(schema)` (lib/schema.js:170-190): each binding's
     * destination in order, then the schema itself.
     */
    method IndexChildren(schema: Node) returns (err: Option<Error>)
      modifies this
      ensures IndexInto(old(State()), schema) == Outcome(err, State())
      decreases schema
    {
      if schema.Queue? {
        err := PushQueue(schema);
        return;
      }
      var i := 0;
      while i < |schema.bindings|
        invariant 0 <= i <= |schema.bindings|
        invariant IndexBindings(old(State()), schema, 0) == IndexBindings(State(), schema, i)
      {
        var dest := schema.bindings[i].destination;
        ghost var before := State();
        if dest.Exchange? {
          var sub := new Indexer();
          err := sub.IndexChildren(dest);
          assert IndexOf(dest) == Outcome(err, sub.State());
          if err.Some? {
            assert AddDestination(before, dest) == Err(err.value);
            return;
          }
          err := PushSubSchema(sub.State(), Some(dest));
        } else {
          err := PushQueue(dest);
        }
        assert AddDestination(before, dest) == Outcome(err, State());
        if err.Some? {
          return;
        }
        i := i + 1;
      }
      err := PushExchange(schema);
    }
  }

  /** `subs` put in front of the sub-schemas `r` lists, or the error `r` is. */
  function Prepend(subs: seq<Index>, r: Result<seq<Index>>): Result<seq<Index>> {
    if r.Err? then r else Ok(subs + r.value)
  }

  /** `value.map(SubSchema)` (lib/schema.js:67): every element's own children, in order. */
  method SubSchemas(items: seq<Node>) returns (r: Result<seq<Index>>)
    ensures r == SubIndexes(items)
  {
    var subs: seq<Index> := [];
    var k := 0;
    assert items[k..] == items;
    assert SubIndexes(items).Ok? ==> subs + SubIndexes(items).value == SubIndexes(items).value;
    while k < |items|
      invariant 0 <= k <= |items| && |subs| == k
      invariant SubIndexes(items) == Prepend(subs, SubIndexes(items[k..]))
    {
      assert items[k..][1..] == items[k + 1..];
      var element := new Indexer();
      var err := element.IndexChildren(items[k]);
      if err.Some? {
        return Err(err.value);
      }
      ghost var tail := SubIndexes(items[k + 1..]);
      assert SubIndexes(items[k..]) == Prepend([element.State()], tail);
      assert tail.Ok? ==> (subs + [element.State()]) + tail.value == subs + ([element.State()] + tail.value);
      subs := subs + [element.State()];
      k := k + 1;
    }
    assert items[k..] == [];
    assert subs + [] == subs;
    return Ok(subs);
  }

  /** `Schema._getChildren` of the schema built from `root`. */
  method GetChildren(root: Root) returns (r: Result<Index>)
    ensures r == Children.GetChildren(root)
  {
    var children := new Indexer();
    if root.Single? {
      var err := children.IndexChildren(root.node);
      return Outcome(err, children.State());
    }
    var subs := SubSchemas(root.items);
    if subs.Err? {
      return Err(subs.error);
    }
    var err := children.PushSubSchemas(subs.value);
    return Outcome(err, children.State());
  }
}
