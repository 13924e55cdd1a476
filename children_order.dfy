/**
 * The order of `_exchanges` (lib/schema.js:170-187): an exchange is listed
 * only after every exchange its bindings lead to, because `indexChildren`
 * indexes a node's destinations before pushing the node itself.
 */
module ChildrenOrder {
  import opened JsValues
  import opened Topology
  import opened Children

  /** The names of the exchanges `x`'s bindings lead to directly. */
  function DestinationExchanges(x: Node): set<string> {
    set j | 0 <= j < |BindingsOf(x)| && BindingsOf(x)[j].destination.Exchange? :: BindingsOf(x)[j].destination.exchange
  }

  /** Every listed exchange comes after the exchanges it binds. */
  predicate PostOrdered(idx: Index) {
    forall i :: 0 <= i < |idx.exchanges| ==> DestinationExchanges(idx.exchanges[i]) <= NamesOf(idx.exchanges[..i])
  }

  lemma EmptyPostOrdered()
    ensures PostOrdered(EmptyIndex)
  {
  }

  /** Every indexed exchange name is the name of a listed exchange. */
  predicate KeysListed(idx: Index) {
    idx.exchangesByName.Keys <= NamesOf(idx.exchanges)
  }

  lemma IndexedIsListed(idx: Index)
    requires Valid(idx)
    ensures KeysListed(idx)
  {
    forall k | k in idx.exchangesByName
      ensures k in NamesOf(idx.exchanges)
    {
      assert idx.exchangesByName[k] in idx.exchanges;
    }
  }

  lemma PushQueueOrder(idx: Index, q: Node)
    requires PostOrdered(idx) && PushQueue(idx, q).Ok?
    ensures PostOrdered(PushQueue(idx, q).value)
  {
  }

  /** Pushing an exchange whose destinations are all indexed keeps the order. */
  lemma PushExchangeOrder(idx: Index, x: Node)
    requires KeysListed(idx) && PostOrdered(idx) && x.Exchange? && PushExchange(idx, x).Ok?
    requires DestinationExchanges(x) <= idx.exchangesByName.Keys
    ensures PostOrdered(PushExchange(idx, x).value)
  {
    var next := PushExchange(idx, x).value;
    if x.exchange !in idx.exchangesByName {
      assert next.exchanges == idx.exchanges + [x];
      forall i | 0 <= i < |next.exchanges|
        ensures DestinationExchanges(next.exchanges[i]) <= NamesOf(next.exchanges[..i])
      {
        if i < |idx.exchanges| {
          assert next.exchanges[..i] == idx.exchanges[..i];
        } else {
          assert next.exchanges[..i] == idx.exchanges;
        }
      }
    }
  }

  /** A push of `x` leaves an index whose exchange names include the old ones and `x`'s. */
  lemma PushExchangeKeys(idx: Index, x: Node)
    requires x.Exchange? && PushExchange(idx, x).Ok?
    ensures idx.exchangesByName.Keys + {x.exchange} <= PushExchange(idx, x).value.exchangesByName.Keys
  {
  }

  lemma PushKeysListed(idx: Index, x: Node)
    requires KeysListed(idx) && x.Exchange? && PushExchange(idx, x).Ok?
    ensures KeysListed(PushExchange(idx, x).value)
  {
    if x.exchange !in idx.exchangesByName {
      var next := PushExchange(idx, x).value;
      assert next.exchanges == idx.exchanges + [x];
      assert NamesOf(idx.exchanges) + {x.exchange} <= NamesOf(next.exchanges) by {
        assert x in next.exchanges;
        forall k | k in NamesOf(idx.exchanges)
          ensures k in NamesOf(next.exchanges)
        {
          var y :| y in idx.exchanges && Name(y) == k;
          assert y in next.exchanges;
        }
      }
    }
  }

  lemma PushQueueKeys(idx: Index, q: Node)
    requires PushQueue(idx, q).Ok?
    ensures PushQueue(idx, q).value.exchangesByName == idx.exchangesByName
    ensures PushQueue(idx, q).value.exchanges == idx.exchanges
  {
  }

  lemma {:induction false} PushQueuesOrder(idx: Index, qs: seq<Node>)
    requires PostOrdered(idx) && PushQueues(idx, qs).Ok?
    ensures PostOrdered(PushQueues(idx, qs).value)
    ensures PushQueues(idx, qs).value.exchangesByName == idx.exchangesByName
    ensures PushQueues(idx, qs).value.exchanges == idx.exchanges
    decreases |qs|
  {
    if qs != [] {
      PushQueueOrder(idx, qs[0]);
      PushQueueKeys(idx, qs[0]);
      PushQueuesOrder(PushQueue(idx, qs[0]).value, qs[1..]);
    }
  }

  /**
   * Pushing a list of exchanges, each of whose destinations is indexed or
   * earlier in the list, keeps the order and indexes all of them.
   */
  lemma {:induction false} PushExchangesOrder(idx: Index, xs: seq<Node>)
    requires KeysListed(idx) && PostOrdered(idx) && PushExchanges(idx, xs).Ok?
    requires forall k :: 0 <= k < |xs| ==> xs[k].Exchange?
    requires ReadyList(idx.exchangesByName.Keys, xs)
    ensures KeysListed(PushExchanges(idx, xs).value) && PostOrdered(PushExchanges(idx, xs).value)
    ensures idx.exchangesByName.Keys + NamesOf(xs) <= PushExchanges(idx, xs).value.exchangesByName.Keys
    decreases |xs|
  {
    if xs != [] {
      ReadyListHead(idx.exchangesByName.Keys, xs);
      var next := PushExchange(idx, xs[0]).value;
      PushReadyExchange(idx, xs[0]);
      ReadyListTail(idx.exchangesByName.Keys, next.exchangesByName.Keys, xs);
      PushExchangesOrder(next, xs[1..]);
      assert PushExchanges(idx, xs) == PushExchanges(next, xs[1..]);
      NamesOfCons(xs);
    }
  }

  /** One push of an exchange whose destinations are all indexed. */
  lemma PushReadyExchange(idx: Index, x: Node)
    requires KeysListed(idx) && PostOrdered(idx) && x.Exchange? && PushExchange(idx, x).Ok?
    requires DestinationExchanges(x) <= idx.exchangesByName.Keys
    ensures KeysListed(PushExchange(idx, x).value) && PostOrdered(PushExchange(idx, x).value)
    ensures idx.exchangesByName.Keys + {x.exchange} <= PushExchange(idx, x).value.exchangesByName.Keys
  {
    PushExchangeOrder(idx, x);
    PushExchangeKeys(idx, x);
    PushKeysListed(idx, x);
  }

  lemma ReadyListHead(known: set<string>, xs: seq<Node>)
    requires xs != [] && ReadyList(known, xs)
    ensures DestinationExchanges(xs[0]) <= known
  {
    assert xs[..0] == [];
  }

  /** Each exchange of `xs` binds only exchanges named in `known` or earlier in `xs`. */
  predicate ReadyList(known: set<string>, xs: seq<Node>) {
    forall k :: 0 <= k < |xs| ==> DestinationExchanges(xs[k]) <= known + NamesOf(xs[..k])
  }

  lemma NamesOfCons(xs: seq<Node>)
    requires xs != []
    ensures NamesOf(xs) == {Name(xs[0])} + NamesOf(xs[1..])
  {
    assert xs == [xs[0]] + xs[1..];
  }

  lemma ReadyListTail(known: set<string>, later: set<string>, xs: seq<Node>)
    requires xs != [] && ReadyList(known, xs) && known + {Name(xs[0])} <= later
    ensures ReadyList(later, xs[1..])
  {
    var rest := xs[1..];
    forall k | 0 <= k < |rest|
      ensures DestinationExchanges(rest[k]) <= later + NamesOf(rest[..k])
    {
      assert rest[k] == xs[k + 1];
      assert xs[..k + 1] == [xs[0]] + rest[..k];
      NamesOfCons(xs[..k + 1]);
      assert xs[..k + 1][1..] == rest[..k];
    }
  }

  lemma MergeIntoOrder(idx: Index, sub: Index, last: Option<Node>)
    requires KeysListed(idx) && KeysListed(sub) && PostOrdered(idx) && PostOrdered(sub)
    requires forall k :: 0 <= k < |sub.exchanges| ==> sub.exchanges[k].Exchange?
    requires last.Some? ==> last.value.Exchange? && DestinationExchanges(last.value) <= sub.exchangesByName.Keys
    requires MergeInto(idx, sub, last).Ok?
    ensures PostOrdered(MergeInto(idx, sub, last).value)
  {
    var r1 := PushQueues(idx, sub.queues).value;
    PushQueuesOrder(idx, sub.queues);
    SubReady(r1, sub);
    var r2 := PushExchanges(r1, sub.exchanges).value;
    PushExchangesOrder(r1, sub.exchanges);
    if last.Some? {
      PushExchangeOrder(r2, last.value);
    }
  }

  /** The exchanges of a post-ordered valid index can be pushed in order, their destinations ready. */
  lemma SubReady(idx: Index, sub: Index)
    requires PostOrdered(sub)
    ensures ReadyList(idx.exchangesByName.Keys, sub.exchanges)
  {
  }

  /** Once the nodes below `n` are pushed, every exchange `n` binds is indexed. */
  lemma DestinationsIndexed(idx: Index, next: Index, n: Node, a: set<Node>)
    requires n.Exchange? && Represents(idx, next, a) && NodesFrom(n, 0) <= a
    ensures DestinationExchanges(n) <= next.exchangesByName.Keys
  {
    forall k | k in DestinationExchanges(n)
      ensures k in next.exchangesByName
    {
      var j :| 0 <= j < |n.bindings| && n.bindings[j].destination.Exchange? && n.bindings[j].destination.exchange == k;
      var d := n.bindings[j].destination;
      DestinationNodes(n, 0, j);
      assert d in a;
      assert Entry(next, SlotOf(d)).Some?;
    }
  }

  lemma {:induction false} IndexOfOrder(n: Node)
    requires IndexOf(n).Ok?
    ensures PostOrdered(IndexOf(n).value)
    decreases n, 3
  {
    IndexIntoOrder(EmptyIndex, n);
  }

  lemma {:induction false} IndexIntoOrder(idx: Index, n: Node)
    requires Valid(idx) && PostOrdered(idx) && IndexInto(idx, n).Ok?
    ensures PostOrdered(IndexInto(idx, n).value)
    decreases n, 2
  {
    if n.Exchange? {
      var mid := IndexBindings(idx, n, 0).value;
      IndexBindingsOrder(idx, n, 0);
      IndexBindingsStep(idx, n, 0);
      DestinationsIndexed(idx, mid, n, NodesFrom(n, 0));
      IndexedIsListed(mid);
      PushExchangeOrder(mid, n);
    } else {
      PushQueueOrder(idx, n);
    }
  }

  lemma {:induction false} IndexBindingsOrder(idx: Index, n: Node, i: nat)
    requires Valid(idx) && PostOrdered(idx) && n.Exchange? && i <= |n.bindings|
    requires IndexBindings(idx, n, i).Ok?
    ensures PostOrdered(IndexBindings(idx, n, i).value)
    decreases n, 1, |n.bindings| - i
  {
    if i < |n.bindings| {
      var d := n.bindings[i].destination;
      AddDestinationOrder(idx, d);
      AddDestinationStep(idx, d);
      IndexBindingsOrder(AddDestination(idx, d).value, n, i + 1);
    }
  }

  lemma {:induction false} AddDestinationOrder(idx: Index, d: Node)
    requires Valid(idx) && PostOrdered(idx) && AddDestination(idx, d).Ok?
    ensures PostOrdered(AddDestination(idx, d).value)
    decreases d, 4
  {
    if d.Exchange? {
      var sub := IndexOf(d).value;
      IndexOfOrder(d);
      IndexOfStep(d);
      DestinationsIndexed(EmptyIndex, sub, d, Nodes(d));
      IndexedIsListed(idx);
      IndexedIsListed(sub);
      MergeIntoOrder(idx, sub, Some(d));
    } else {
      PushQueueOrder(idx, d);
    }
  }

  lemma {:induction false} MergeAllOrder(idx: Index, subs: seq<Index>, items: seq<Node>)
    requires Valid(idx) && PostOrdered(idx) && EachRepresents(subs, items)
    requires forall k :: 0 <= k < |subs| ==> PostOrdered(subs[k])
    requires MergeAll(idx, subs).Ok?
    ensures PostOrdered(MergeAll(idx, subs).value)
    decreases |subs|
  {
    if subs != [] {
      IndexedIsListed(idx);
      IndexedIsListed(subs[0]);
      MergeIntoOrder(idx, subs[0], None);
      MergeOneStep(idx, subs[0], items[0]);
      MergeAllOrder(MergeInto(idx, subs[0], None).value, subs[1..], items[1..]);
    }
  }

  lemma {:induction false} SubIndexesOrder(items: seq<Node>)
    requires SubIndexes(items).Ok?
    ensures forall k :: 0 <= k < |SubIndexes(items).value| ==> PostOrdered(SubIndexes(items).value[k])
    decreases |items|
  {
    if items != [] {
      IndexOfOrder(items[0]);
      SubIndexesOrder(items[1..]);
      var subs := SubIndexes(items).value;
      assert subs == [IndexOf(items[0]).value] + SubIndexes(items[1..]).value;
    }
  }

  /**
   * In the children of any topology, every exchange a listed exchange binds
   * is listed before it: the exchange list is in post-order.
   */
  lemma ChildrenPostOrder(root: Root)
    requires GetChildren(root).Ok?
    ensures var xs := GetChildren(root).value.exchanges;
            forall i :: 0 <= i < |xs| ==> DestinationExchanges(xs[i]) <= NamesOf(xs[..i])
  {
    match root
    case Single(n) => IndexOfOrder(n);
    case Many(items) =>
      SubIndexesSpec(items);
      SubIndexesOrder(items);
      MergeAllOrder(EmptyIndex, SubIndexes(items).value, items);
  }
}
