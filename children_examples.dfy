/**
 * The children of the topology used by the unit tests (test/schema.unit.js:487-530),
 * worked out step by step: exchanges are listed in post-order.
 */
module ChildrenExamples {
  import opened JsValues
  import opened Topology
  import opened Children

  /** Pushing a queue whose name is already indexed leaves the index as it is. */
  lemma PushKnownQueue(idx: Index, q: Node)
    requires q.Queue? && q.queue in idx.queuesByName && idx.queuesByName[q.queue] == q
    ensures PushQueue(idx, q) == Ok(idx)
  {
  }

  lemma PushKnownExchange(idx: Index, x: Node)
    requires x.Exchange? && x.exchange in idx.exchangesByName && idx.exchangesByName[x.exchange] == x
    ensures PushExchange(idx, x) == Ok(idx)
  {
  }

  /**
   * `exchange1` of test/schema.unit.js:307-324, binding only the queue, added
   * as a destination to the empty index: its queue, then itself.
   */
  lemma FirstExchange1(q: Node, e1: Node)
    requires q.Queue? && e1.Exchange? && e1.bindings == [Binding(q, None, None, None)]
    ensures AddDestination(EmptyIndex, e1) == Ok(Index([q], [e1], map[q.queue := q], map[e1.exchange := e1]))
  {
    var qm := map[q.queue := q];
    var qi := Index([q], [], qm, map[]);
    var one := Index([q], [e1], qm, map[e1.exchange := e1]);
    OneQueueExchange(q, e1);
    assert EmptyIndex.queues + [q] == [q];
    assert EmptyIndex.queuesByName[q.queue := q] == qm;
    assert PushQueue(EmptyIndex, q) == Ok(qi);
    assert PushQueues(EmptyIndex, [q]) == Ok(qi);
    assert qi.exchanges + [e1] == [e1];
    assert qi.exchangesByName[e1.exchange := e1] == map[e1.exchange := e1];
    assert PushExchanges(qi, [e1]) == Ok(one);
    PushKnownExchange(one, e1);
    assert PushExchangesThen(qi, [e1], Some(e1)) == Ok(one);
    assert MergeInto(EmptyIndex, one, Some(e1)) == Ok(one);
  }

  /**
   * test/schema.unit.js:361-366: `exchange0` of the array topology binds
   * `exchange1` and then a copy of it with other options. The copy's own
   * children are fine; merging them finds `exchange1` stored with other
   * options, so building the children throws "mismatched options".
   */
  lemma SiblingCopyOptions(q: Node, e1: Node, copy: Node, e0: Node)
    requires q.Queue? && e1.Exchange? && e1.bindings == [Binding(q, None, None, None)]
    requires copy.Exchange? && copy.exchange == e1.exchange && copy.bindings == e1.bindings
    requires OptionsOrEmpty(copy.options) != OptionsOrEmpty(e1.options)
    requires e0.Exchange? && e0.bindings == [Binding(e1, None, None, None), Binding(copy, None, None, None)]
    ensures GetChildren(Many([e0])) == Fail(AssertionError, ExchangeOptionsMismatch(e1.exchange))
  {
    var one := Index([q], [e1], map[q.queue := q], map[e1.exchange := e1]);
    var sub := Index([q], [copy], map[q.queue := q], map[copy.exchange := copy]);
    var err := Error(AssertionError, Text(ExchangeOptionsMismatch(e1.exchange)));
    FirstExchange1(q, e1);
    assert IndexBindings(EmptyIndex, e0, 0) == IndexBindings(one, e0, 1);
    OneQueueExchange(q, copy);
    PushKnownQueue(one, q);
    assert PushQueues(one, [q]) == Ok(one);
    assert PushExchange(one, copy) == Err(err);
    assert PushExchanges(one, [copy]) == Err(err);
    assert MergeInto(one, sub, Some(copy)) == Err(err);
    assert AddDestination(one, copy) == Err(err);
    assert IndexBindings(one, e0, 1) == Err(err);
    assert IndexOf(e0) == Err(err);
    assert SubIndexes([e0]) == Err(err);
  }

  /**
   * test/schema.unit.js:367-373: the copy of `exchange1` now binds
   * `exchange1` itself instead of the queue. Indexing the copy meets
   * `exchange1` with the same options but other bindings, so building the
   * children throws "mismatched bindings".
   */
  lemma SiblingCopyBindings(q: Node, e1: Node, copy: Node, e0: Node)
    requires q.Queue? && e1.Exchange? && e1.bindings == [Binding(q, None, None, None)]
    requires copy.Exchange? && copy.exchange == e1.exchange && copy.bindings == [Binding(e1, None, None, None)]
    requires OptionsOrEmpty(copy.options) == OptionsOrEmpty(e1.options)
    requires e0.Exchange? && e0.bindings == [Binding(e1, None, None, None), Binding(copy, None, None, None)]
    ensures GetChildren(Many([e0])) == Fail(AssertionError, ExchangeBindingsMismatch(e1.exchange))
  {
    var one := Index([q], [e1], map[q.queue := q], map[e1.exchange := e1]);
    var err := Error(AssertionError, Text(ExchangeBindingsMismatch(e1.exchange)));
    FirstExchange1(q, e1);
    assert IndexBindings(EmptyIndex, e0, 0) == IndexBindings(one, e0, 1);
    assert IndexBindings(EmptyIndex, copy, 0) == IndexBindings(one, copy, 1) == Ok(one);
    assert BindingsOf(e1) != BindingsOf(copy) by {
      assert BindingsOf(e1)[0].destination != BindingsOf(copy)[0].destination;
    }
    assert PushExchange(one, copy) == Err(err);
    assert IndexOf(copy) == Err(err);
    assert AddDestination(one, copy) == Err(err);
    assert IndexBindings(one, e0, 1) == Err(err);
    assert IndexOf(e0) == Err(err);
    assert SubIndexes([e0]) == Err(err);
  }

  /**
   * Two queues of one name with other options (test/schema.unit.js:374-380):
   * the second throws "mismatched options".
   */
  lemma TwinQueueOptions(x: Node, q1: Node, q2: Node)
    requires q1.Queue? && q2.Queue? && q1.queue == q2.queue
    requires OptionsOrEmpty(q1.options) != OptionsOrEmpty(q2.options)
    requires x.Exchange? && x.bindings == [Binding(q1, None, None, None), Binding(q2, None, None, None)]
    ensures IndexOf(x) == Fail(AssertionError, QueueOptionsMismatch(q2.queue))
  {
    var one := Index([q1], [], map[q1.queue := q1], map[]);
    assert EmptyIndex.queues + [q1] == [q1];
    assert EmptyIndex.queuesByName[q1.queue := q1] == map[q1.queue := q1];
    assert AddDestination(EmptyIndex, q1) == Ok(one);
    assert IndexBindings(EmptyIndex, x, 0) == IndexBindings(one, x, 1);
    assert Name(q2) in one.queuesByName && one.queuesByName[Name(q2)] == q1;
    assert PushQueue(one, q2) == Fail(AssertionError, QueueOptionsMismatch(q2.queue));
    assert AddDestination(one, q2) == PushQueue(one, q2);
  }

  /**
   * `exchange1` binds `exchange2` and the queue; `exchange2` binds
   * `miss-exchange1` and `exchange3`, which both bind the queue. The queue is
   * listed once, and the exchanges as miss-exchange1, exchange3, exchange2,
   * exchange1. Which routing patterns and types the nodes carry does not matter.
   */
  lemma LargeSchemaOrder(q: Node, m1: Node, e3: Node, e2: Node, e1: Node)
    requires q.Queue?
    requires m1.Exchange? && m1.bindings == [Binding(q, None, None, None)]
    requires e3.Exchange? && e3.bindings == [Binding(q, None, None, None)]
    requires e2.Exchange? && |e2.bindings| == 2 && e2.bindings[0].destination == m1 && e2.bindings[1].destination == e3
    requires e1.Exchange? && |e1.bindings| == 2 && e1.bindings[0].destination == e2 && e1.bindings[1].destination == q
    requires m1.exchange != e3.exchange && m1.exchange != e2.exchange && m1.exchange != e1.exchange
    requires e3.exchange != e2.exchange && e3.exchange != e1.exchange && e2.exchange != e1.exchange
    ensures IndexOf(e1).Ok?
    ensures IndexOf(e1).value.queues == [q]
    ensures IndexOf(e1).value.exchanges == [m1, e3, e2, e1]
  {
    var i132 := Index([q], [m1, e3, e2], map[q.queue := q], map[m1.exchange := m1, e3.exchange := e3, e2.exchange := e2]);
    Exchange1Bindings(q, m1, e3, e2, e1);
    assert IndexOf(e1) == PushExchange(i132, e1);
    assert e1.exchange !in i132.exchangesByName;
    assert i132.exchanges + [e1] == [m1, e3, e2, e1];
  }

  /** `exchange1`'s bindings add `exchange2`'s children and itself; the queue is already there. */
  lemma Exchange1Bindings(q: Node, m1: Node, e3: Node, e2: Node, e1: Node)
    requires q.Queue?
    requires m1.Exchange? && m1.bindings == [Binding(q, None, None, None)]
    requires e3.Exchange? && e3.bindings == [Binding(q, None, None, None)]
    requires e2.Exchange? && |e2.bindings| == 2 && e2.bindings[0].destination == m1 && e2.bindings[1].destination == e3
    requires e1.Exchange? && |e1.bindings| == 2 && e1.bindings[0].destination == e2 && e1.bindings[1].destination == q
    requires m1.exchange != e3.exchange && m1.exchange != e2.exchange && e3.exchange != e2.exchange
    ensures IndexBindings(EmptyIndex, e1, 0) ==
            Ok(Index([q], [m1, e3, e2], map[q.queue := q], map[m1.exchange := m1, e3.exchange := e3, e2.exchange := e2]))
  {
    var qm := map[q.queue := q];
    var qi := Index([q], [], qm, map[]);
    var im1 := Index([q], [m1], qm, map[m1.exchange := m1]);
    var xm13 := map[m1.exchange := m1, e3.exchange := e3];
    var i13 := Index([q], [m1, e3], qm, xm13);
    var i132 := Index([q], [m1, e3, e2], qm, xm13[e2.exchange := e2]);
    Exchange2Children(q, m1, e3, e2);
    assert PushQueues(EmptyIndex, [q]) == Ok(qi) by {
      assert [q][1..] == [];
      assert EmptyIndex.queues + [q] == [q];
      assert EmptyIndex.queuesByName[q.queue := q] == qm;
    }
    PushExchangesInOrder(qi, m1, e3, e2, im1, i13, i132);
    PushKnownExchange(i132, e2);
    assert AddDestination(EmptyIndex, e2) == Ok(i132);
    PushKnownQueue(i132, q);
    assert AddDestination(i132, q) == Ok(i132);
    assert IndexBindings(i132, e1, 2) == Ok(i132);
    assert IndexBindings(i132, e1, 1) == Ok(i132);
  }

  /** `exchange2`'s own children: the queue, then `miss-exchange1, exchange3, exchange2`. */
  lemma Exchange2Children(q: Node, m1: Node, e3: Node, e2: Node)
    requires q.Queue?
    requires m1.Exchange? && m1.bindings == [Binding(q, None, None, None)]
    requires e3.Exchange? && e3.bindings == [Binding(q, None, None, None)]
    requires e2.Exchange? && |e2.bindings| == 2 && e2.bindings[0].destination == m1 && e2.bindings[1].destination == e3
    requires m1.exchange != e3.exchange && m1.exchange != e2.exchange && e3.exchange != e2.exchange
    ensures IndexOf(e2) == Ok(Index([q], [m1, e3, e2], map[q.queue := q],
                                    map[m1.exchange := m1, e3.exchange := e3, e2.exchange := e2]))
  {
    var qm := map[q.queue := q];
    var im1 := Index([q], [m1], qm, map[m1.exchange := m1]);
    var xm13 := map[m1.exchange := m1, e3.exchange := e3];
    var i13 := Index([q], [m1, e3], qm, xm13);
    var i132 := Index([q], [m1, e3, e2], qm, xm13[e2.exchange := e2]);
    Exchange2Bindings(q, m1, e3, e2);
    assert IndexBindings(EmptyIndex, e2, 0) == Ok(i13);
    assert PushExchange(i13, e2) == Ok(i132) by {
      assert i13.exchanges + [e2] == [m1, e3, e2];
    }
    assert IndexOf(e2) == IndexInto(EmptyIndex, e2) == Ok(i132);
  }

  /** `exchange2`'s bindings add `miss-exchange1`'s children and itself, then `exchange3`'s. */
  lemma Exchange2Bindings(q: Node, m1: Node, e3: Node, e2: Node)
    requires q.Queue?
    requires m1.Exchange? && m1.bindings == [Binding(q, None, None, None)]
    requires e3.Exchange? && e3.bindings == [Binding(q, None, None, None)]
    requires e2.Exchange? && |e2.bindings| == 2 && e2.bindings[0].destination == m1 && e2.bindings[1].destination == e3
    requires m1.exchange != e3.exchange
    ensures IndexBindings(EmptyIndex, e2, 0) ==
            Ok(Index([q], [m1, e3], map[q.queue := q], map[m1.exchange := m1, e3.exchange := e3]))
  {
    var qm := map[q.queue := q];
    var qi := Index([q], [], qm, map[]);
    var im1 := Index([q], [m1], qm, map[m1.exchange := m1]);
    var xm13 := map[m1.exchange := m1, e3.exchange := e3];
    var i13 := Index([q], [m1, e3], qm, xm13);
    FirstDestination(q, m1);
    assert AddDestination(EmptyIndex, m1) == Ok(im1);
    SecondDestination(q, m1, e3);
    assert AddDestination(im1, e3) == Ok(i13);
    assert IndexBindings(i13, e2, 2) == Ok(i13);
    assert IndexBindings(im1, e2, 1) == Ok(i13);
  }

  /** The first destination adds its queue and itself. */
  lemma FirstDestination(q: Node, m1: Node)
    requires q.Queue? && m1.Exchange? && m1.bindings == [Binding(q, None, None, None)]
    ensures MergeInto(EmptyIndex, Index([q], [m1], map[q.queue := q], map[m1.exchange := m1]), Some(m1))
         == Ok(Index([q], [m1], map[q.queue := q], map[m1.exchange := m1]))
    ensures AddDestination(EmptyIndex, m1) == Ok(Index([q], [m1], map[q.queue := q], map[m1.exchange := m1]))
  {
    var qm := map[q.queue := q];
    var qi := Index([q], [], qm, map[]);
    var im1 := Index([q], [m1], qm, map[m1.exchange := m1]);
    OneQueueExchange(q, m1);
    assert PushQueues(EmptyIndex, [q]) == Ok(qi) by {
      assert [q][1..] == [];
      assert EmptyIndex.queues + [q] == [q];
      assert EmptyIndex.queuesByName[q.queue := q] == qm;
    }
    assert PushExchanges(qi, [m1]) == Ok(im1) by {
      assert [m1][1..] == [];
      assert qi.exchanges + [m1] == [m1];
      assert qi.exchangesByName[m1.exchange := m1] == map[m1.exchange := m1];
    }
    PushKnownExchange(im1, m1);
  }

  /** The second destination finds its queue indexed and adds only itself. */
  lemma SecondDestination(q: Node, m1: Node, e3: Node)
    requires q.Queue? && m1.Exchange? && e3.Exchange? && e3.bindings == [Binding(q, None, None, None)]
    requires m1.exchange != e3.exchange
    ensures AddDestination(Index([q], [m1], map[q.queue := q], map[m1.exchange := m1]), e3)
         == Ok(Index([q], [m1, e3], map[q.queue := q], map[m1.exchange := m1, e3.exchange := e3]))
  {
    var qm := map[q.queue := q];
    var im1 := Index([q], [m1], qm, map[m1.exchange := m1]);
    var xm13 := map[m1.exchange := m1, e3.exchange := e3];
    var i13 := Index([q], [m1, e3], qm, xm13);
    OneQueueExchange(q, e3);
    PushKnownQueue(im1, q);
    assert PushQueues(im1, [q]) == Ok(im1) by { assert [q][1..] == []; }
    assert PushExchanges(im1, [e3]) == Ok(i13) by {
      assert [e3][1..] == [];
      assert im1.exchanges + [e3] == [m1, e3];
      assert im1.exchangesByName[e3.exchange := e3] == xm13;
    }
    PushKnownExchange(i13, e3);
  }

  /** Three fresh exchanges pushed in turn are listed in that order. */
  lemma PushExchangesInOrder(qi: Index, m1: Node, e3: Node, e2: Node, im1: Index, i13: Index, i132: Index)
    requires m1.Exchange? && e3.Exchange? && e2.Exchange?
    requires m1.exchange != e3.exchange && m1.exchange != e2.exchange && e3.exchange != e2.exchange
    requires qi.exchanges == [] && qi.exchangesByName == map[]
    requires im1 == qi.(exchanges := [m1], exchangesByName := map[m1.exchange := m1])
    requires i13 == qi.(exchanges := [m1, e3], exchangesByName := map[m1.exchange := m1, e3.exchange := e3])
    requires i132 == qi.(exchanges := [m1, e3, e2], exchangesByName := i13.exchangesByName[e2.exchange := e2])
    ensures PushExchanges(qi, [m1, e3, e2]) == Ok(i132)
  {
    assert PushExchange(qi, m1) == Ok(im1) by {
      assert qi.exchanges + [m1] == [m1];
      assert qi.exchangesByName[m1.exchange := m1] == map[m1.exchange := m1];
    }
    assert PushExchange(im1, e3) == Ok(i13) by {
      assert im1.exchanges + [e3] == [m1, e3];
      assert im1.exchangesByName[e3.exchange := e3] == map[m1.exchange := m1, e3.exchange := e3];
    }
    assert PushExchange(i13, e2) == Ok(i132) by {
      assert i13.exchanges + [e2] == [m1, e3, e2];
    }
    assert [m1, e3, e2][1..] == [e3, e2];
    assert [e3, e2][1..] == [e2];
    assert [e2][1..] == [];
    assert PushExchanges(i132, []) == Ok(i132);
    assert PushExchanges(i13, [e2]) == Ok(i132);
    assert PushExchanges(im1, [e3, e2]) == Ok(i132);
  }

  /** An exchange whose only binding leads to a queue: the queue, then the exchange. */
  lemma OneQueueExchange(q: Node, x: Node)
    requires q.Queue? && x.Exchange? && |x.bindings| == 1 && x.bindings[0].destination == q
    ensures IndexOf(x) == Ok(Index([q], [x], map[q.queue := q], map[x.exchange := x]))
  {
    var qi := Index([q], [], map[q.queue := q], map[]);
    QueueRootChildren(q);
    assert IndexOf(q) == IndexInto(EmptyIndex, q) == PushQueue(EmptyIndex, q);
    assert AddDestination(EmptyIndex, q) == Ok(qi);
    assert IndexBindings(qi, x, 1) == Ok(qi);
    assert IndexBindings(EmptyIndex, x, 0) == Ok(qi);
    assert IndexOf(x) == IndexInto(EmptyIndex, x) == PushExchange(qi, x);
    assert qi.exchanges + [x] == [x];
    assert qi.exchangesByName[x.exchange := x] == map[x.exchange := x];
  }
}
