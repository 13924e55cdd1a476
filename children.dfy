/**
 * `Schema._getChildren` (lib/schema.js:151-240) as functions: the list of
 * unique queues and exchanges of a topology, each also indexed by name, built
 * by pushing nodes one at a time and checking every repeated name against
 * the node first stored under it.
 */
module Children {
  import opened JsValues
  import opened Topology

  /** The `children` object: the lists and the by-name maps. */
  datatype Index = Index(
    queues: seq<Node>,
    exchanges: seq<Node>,
    queuesByName: map<string, Node>,
    exchangesByName: map<string, Node>)

  const EmptyIndex := Index([], [], map[], map[])

  function ExchangeOptionsMismatch(name: string): string {
    "'" + name + "' exchange is defined multiple times with mismatched options"
  }

  function ExchangeBindingsMismatch(name: string): string {
    "'" + name + "' exchange is defined multiple times with mismatched bindings"
  }

  function QueueOptionsMismatch(name: string): string {
    "'" + name + "' queue is defined multiple times with mismatched options"
  }

  /** `exchange.bindings`; a queue has none. */
  function BindingsOf(n: Node): seq<Binding> {
    if n.Exchange? then n.bindings else []
  }

  // ---------------------------------------------------------------------
  // pushQueue / pushExchange
  // ---------------------------------------------------------------------

  /** `pushQueue` (lib/schema.js:222-237). */
  function PushQueue(idx: Index, q: Node): Result<Index> {
    var name := Name(q);
    if name in idx.queuesByName then
      if OptionsOrEmpty(idx.queuesByName[name].options) == OptionsOrEmpty(q.options) then Ok(idx)
      else Fail(AssertionError, QueueOptionsMismatch(name))
    else
      Ok(idx.(queues := idx.queues + [q], queuesByName := idx.queuesByName[name := q]))
  }

  /** `pushExchange` (lib/schema.js:196-216): options are compared before bindings. */
  function PushExchange(idx: Index, x: Node): Result<Index> {
    var name := Name(x);
    if name in idx.exchangesByName then
      var identical := idx.exchangesByName[name];
      if OptionsOrEmpty(identical.options) != OptionsOrEmpty(x.options) then
        Fail(AssertionError, ExchangeOptionsMismatch(name))
      else if BindingsOf(identical) != BindingsOf(x) then
        Fail(AssertionError, ExchangeBindingsMismatch(name))
      else Ok(idx)
    else
      Ok(idx.(exchanges := idx.exchanges + [x], exchangesByName := idx.exchangesByName[name := x]))
  }

  /** `queues.forEach(pushQueue)`: stops at the first throw. */
  function PushQueues(idx: Index, qs: seq<Node>): Result<Index>
    decreases |qs|
  {
    if qs == [] then Ok(idx)
    else match PushQueue(idx, qs[0])
      case Err(e) => Err(e)
      case Ok(next) => PushQueues(next, qs[1..])
  }

  /** `exchanges.forEach(pushExchange)`: stops at the first throw. */
  function PushExchanges(idx: Index, xs: seq<Node>): Result<Index>
    decreases |xs|
  {
    if xs == [] then Ok(idx)
    else match PushExchange(idx, xs[0])
      case Err(e) => Err(e)
      case Ok(next) => PushExchanges(next, xs[1..])
  }

  // ---------------------------------------------------------------------
  // indexChildren
  // ---------------------------------------------------------------------

  /** The children a `SubSchema` of `n` computes for itself, starting from an empty index. */
  function IndexOf(n: Node): Result<Index>
    decreases n, 3
  {
    IndexInto(EmptyIndex, n)
  }

  /** `indexChildren(n)` (lib/schema.js:170-190) adding to `idx`: the bindings first, `n` last. */
  function IndexInto(idx: Index, n: Node): Result<Index>
    decreases n, 2
  {
    if n.Exchange? then
      match IndexBindings(idx, n, 0)
      case Err(e) => Err(e)
      case Ok(next) => PushExchange(next, n)
    else PushQueue(idx, n)
  }

  /** The `bindings.forEach` of `indexChildren`, from binding `i` on. */
  function IndexBindings(idx: Index, n: Node, i: nat): Result<Index>
    requires n.Exchange? && i <= |n.bindings|
    decreases n, 1, |n.bindings| - i
  {
    if i == |n.bindings| then Ok(idx)
    else match AddDestination(idx, n.bindings[i].destination)
      case Err(e) => Err(e)
      case Ok(next) => IndexBindings(next, n, i + 1)
  }

  /**
   * One binding's destination (lib/schema.js:173-183): an exchange brings its
   * own children, queues then exchanges, and then itself; a queue is pushed.
   */
  function AddDestination(idx: Index, d: Node): Result<Index>
    decreases d, 4
  {
    if d.Exchange? then
      match IndexOf(d)
      case Err(e) => Err(e)
      case Ok(sub) => MergeInto(idx, sub, Some(d))
    else PushQueue(idx, d)
  }

  /** Push a sub-index's queues, then its exchanges, then (if given) one more exchange. */
  function MergeInto(idx: Index, sub: Index, last: Option<Node>): Result<Index> {
    match PushQueues(idx, sub.queues)
    case Err(e) => Err(e)
    case Ok(withQueues) => PushExchangesThen(withQueues, sub.exchanges, last)
  }

  /** Push exchanges, then (if given) one more exchange. */
  function PushExchangesThen(idx: Index, xs: seq<Node>, last: Option<Node>): Result<Index> {
    match PushExchanges(idx, xs)
    case Err(e) => Err(e)
    case Ok(withExchanges) =>
      if last.Some? then PushExchange(withExchanges, last.value) else Ok(withExchanges)
  }

  // ---------------------------------------------------------------------
  // _getChildren
  // ---------------------------------------------------------------------

  /** Each array element's own children, computed in order; the first throw wins. */
  function SubIndexes(items: seq<Node>): Result<seq<Index>>
    decreases |items|
  {
    if items == [] then Ok([])
    else match IndexOf(items[0])
      case Err(e) => Err(e)
      case Ok(first) =>
        match SubIndexes(items[1..])
        case Err(e) => Err(e)
        case Ok(rest) => Ok([first] + rest)
  }

  /** The `forEach(schemas, ..)` of an array topology: each element's queues, then its exchanges. */
  function MergeAll(idx: Index, subs: seq<Index>): Result<Index>
    decreases |subs|
  {
    if subs == [] then Ok(idx)
    else match MergeInto(idx, subs[0], None)
      case Err(e) => Err(e)
      case Ok(next) => MergeAll(next, subs[1..])
  }

  /** `Schema._getChildren` of the schema built from `root`. */
  function GetChildren(root: Root): Result<Index> {
    match root
    case Single(n) => IndexOf(n)
    case Many(items) =>
      match SubIndexes(items)
      case Err(e) => Err(e)
      case Ok(subs) => MergeAll(EmptyIndex, subs)
  }

  // ---------------------------------------------------------------------
  // What an index holds
  // ---------------------------------------------------------------------

  /** Queues and exchanges have separate name spaces. */
  datatype Slot = QueueSlot(queueName: string) | ExchangeSlot(exchangeName: string)

  function SlotOf(n: Node): Slot {
    if n.Queue? then QueueSlot(n.queue) else ExchangeSlot(n.exchange)
  }

  /** The node stored under a slot, if any. */
  function Entry(idx: Index, s: Slot): Option<Node> {
    match s
    case QueueSlot(k) => if k in idx.queuesByName then Some(idx.queuesByName[k]) else None
    case ExchangeSlot(k) => if k in idx.exchangesByName then Some(idx.exchangesByName[k]) else None
  }

  /** What the duplicate checks compare: `options || {}`, and the bindings of an exchange. */
  predicate Agree(a: Node, b: Node) {
    OptionsOrEmpty(a.options) == OptionsOrEmpty(b.options) && BindingsOf(a) == BindingsOf(b)
  }

  /**
   * The lists hold queues and exchanges respectively, no name twice, and
   * each map indexes exactly its list by name.
   */
  predicate Valid(idx: Index) {
    Indexes(idx.queues, idx.queuesByName, false) && Indexes(idx.exchanges, idx.exchangesByName, true)
  }

  /** A queue, or an exchange when `exchange` holds. */
  predicate OfKind(n: Node, exchange: bool) {
    n.Exchange? == exchange
  }

  /** `list` holds nodes of one kind, no name twice, and `byName` indexes exactly `list` by name. */
  predicate Indexes(list: seq<Node>, byName: map<string, Node>, exchange: bool) {
    (forall i :: 0 <= i < |list| ==>
       OfKind(list[i], exchange) && Name(list[i]) in byName && byName[Name(list[i])] == list[i]) &&
    (forall i, j :: 0 <= i < j < |list| ==> Name(list[i]) != Name(list[j])) &&
    (forall k :: k in byName ==> OfKind(byName[k], exchange) && Name(byName[k]) == k && byName[k] in list)
  }

  /** Appending a node under a fresh name keeps a list indexed. */
  lemma IndexesAppend(list: seq<Node>, byName: map<string, Node>, exchange: bool, n: Node)
    requires Indexes(list, byName, exchange) && OfKind(n, exchange) && Name(n) !in byName
    ensures Indexes(list + [n], byName[Name(n) := n], exchange)
  {
    var list', byName' := list + [n], byName[Name(n) := n];
    forall i | 0 <= i < |list'|
      ensures OfKind(list'[i], exchange) && Name(list'[i]) in byName' && byName'[Name(list'[i])] == list'[i]
    {
      if i < |list| {
        assert list'[i] == list[i];
      }
    }
  }

  /** Every node of `a` agrees with what `idx` already stores under its slot. */
  predicate Compatible(idx: Index, a: set<Node>) {
    forall t :: t in a && Entry(idx, SlotOf(t)).Some? ==> Agree(Entry(idx, SlotOf(t)).value, t)
  }

  /** Any two nodes of `a` with the same kind and name agree. */
  predicate Pairwise(a: set<Node>) {
    forall t, u :: t in a && u in a && SlotOf(t) == SlotOf(u) ==> Agree(t, u)
  }

  predicate Consistent(idx: Index, a: set<Node>) {
    Compatible(idx, a) && Pairwise(a)
  }

  /**
   * `next` is `idx` after the nodes of `a` were pushed: the lists grew at
   * their ends by nodes of `a` only, old entries are kept, and every node
   * of `a` has an entry it agrees with.
   */
  ghost predicate Represents(idx: Index, next: Index, a: set<Node>) {
    Valid(next) &&
    idx.queues <= next.queues && idx.exchanges <= next.exchanges &&
    (forall i :: |idx.queues| <= i < |next.queues| ==> next.queues[i] in a) &&
    (forall i :: |idx.exchanges| <= i < |next.exchanges| ==> next.exchanges[i] in a) &&
    (forall s :: Entry(idx, s).Some? ==> Entry(next, s) == Entry(idx, s)) &&
    (forall s :: Entry(next, s).Some? && Entry(idx, s).None? ==> Entry(next, s).value in a) &&
    (forall t :: t in a ==> Entry(next, SlotOf(t)).Some? && Agree(Entry(next, SlotOf(t)).value, t))
  }

  /**
   * `e` is what pushing `t` throws when `u`, of the same kind and name, is
   * stored first: mismatched `options || {}` are reported before mismatched
   * bindings, and a queue is only compared by its options.
   */
  predicate Mismatch(u: Node, t: Node, e: Error) {
    SlotOf(u) == SlotOf(t) && e.kind == AssertionError &&
    if OptionsOrEmpty(u.options) != OptionsOrEmpty(t.options) then
      e.message == Text(if t.Queue? then QueueOptionsMismatch(t.queue) else ExchangeOptionsMismatch(t.exchange))
    else
      t.Exchange? && BindingsOf(u) != BindingsOf(t) && e.message == Text(ExchangeBindingsMismatch(t.exchange))
  }

  /** `e` reports a node of `a` that clashes with a node of `a` or with what `idx` stores under its name. */
  ghost predicate Clash(idx: Index, e: Error, a: set<Node>) {
    exists t, u :: t in a && (u in a || Entry(idx, SlotOf(t)) == Some(u)) && Mismatch(u, t, e)
  }

  /**
   * Pushing the nodes of `a` into a valid `idx` succeeds exactly when they
   * are consistent with `idx` and with each other, and on success yields an
   * index representing them; a failure reports a clash among them.
   */
  ghost predicate Step(idx: Index, r: Result<Index>, a: set<Node>) {
    (r.Ok? <==> Consistent(idx, a)) &&
    (r.Ok? ==> Represents(idx, r.value, a)) &&
    (r.Err? ==> Clash(idx, r.error, a))
  }

  lemma EmptyValid()
    ensures Valid(EmptyIndex)
  {
  }

  lemma {:induction false} PushQueueStep(idx: Index, q: Node)
    requires Valid(idx) && q.Queue?
    ensures Step(idx, PushQueue(idx, q), {q})
    ensures PushQueue(idx, q).Err? ==>
              q.queue in idx.queuesByName && Mismatch(idx.queuesByName[q.queue], q, PushQueue(idx, q).error)
  {
    PushQueueFails(idx, q);
    if q.queue !in idx.queuesByName {
      PushFreshQueue(idx, q);
    } else {
      var identical := idx.queuesByName[q.queue];
      assert Entry(idx, SlotOf(q)) == Some(identical);
      assert identical.Queue? && BindingsOf(identical) == [] == BindingsOf(q);
      if Agree(identical, q) {
        assert PushQueue(idx, q) == Ok(idx);
        assert Represents(idx, idx, {q});
      } else {
        assert !Compatible(idx, {q});
      }
    }
  }

  lemma {:induction false} PushExchangeStep(idx: Index, x: Node)
    requires Valid(idx) && x.Exchange?
    ensures Step(idx, PushExchange(idx, x), {x})
    ensures PushExchange(idx, x).Err? ==>
              x.exchange in idx.exchangesByName && Mismatch(idx.exchangesByName[x.exchange], x, PushExchange(idx, x).error)
  {
    PushExchangeFails(idx, x);
    if x.exchange !in idx.exchangesByName {
      PushFreshExchange(idx, x);
    } else {
      var identical := idx.exchangesByName[x.exchange];
      assert Entry(idx, SlotOf(x)) == Some(identical);
      if Agree(identical, x) {
        assert PushExchange(idx, x) == Ok(idx);
        assert Represents(idx, idx, {x});
      } else {
        assert !Compatible(idx, {x});
      }
    }
  }

  /** A failed `pushQueue` reports its queue's mismatch with the queue stored first under the name. */
  lemma PushQueueFails(idx: Index, q: Node)
    requires Valid(idx) && q.Queue?
    ensures PushQueue(idx, q).Err? ==>
              q.queue in idx.queuesByName && Mismatch(idx.queuesByName[q.queue], q, PushQueue(idx, q).error)
  {
    if q.queue in idx.queuesByName {
      var u := idx.queuesByName[q.queue];
      assert OfKind(u, false) && Name(u) == q.queue;
    }
  }

  /** A failed `pushExchange` reports its exchange's mismatch with the exchange stored first under the name. */
  lemma PushExchangeFails(idx: Index, x: Node)
    requires Valid(idx) && x.Exchange?
    ensures PushExchange(idx, x).Err? ==>
              x.exchange in idx.exchangesByName && Mismatch(idx.exchangesByName[x.exchange], x, PushExchange(idx, x).error)
  {
    if x.exchange in idx.exchangesByName {
      var u := idx.exchangesByName[x.exchange];
      assert OfKind(u, true) && Name(u) == x.exchange;
    }
  }

  /** A successful push keeps an index valid. */
  lemma PushExchangeValid(idx: Index, x: Node)
    requires Valid(idx) && x.Exchange? && PushExchange(idx, x).Ok?
    ensures Valid(PushExchange(idx, x).value)
  {
    PushExchangeStep(idx, x);
  }

  lemma {:induction false} PushFreshQueue(idx: Index, q: Node)
    requires Valid(idx) && q.Queue? && q.queue !in idx.queuesByName
    ensures Step(idx, PushQueue(idx, q), {q})
  {
    var next := idx.(queues := idx.queues + [q], queuesByName := idx.queuesByName[q.queue := q]);
    IndexesAppend(idx.queues, idx.queuesByName, false, q);
    FreshEntries(idx, next, q);
  }

  lemma {:induction false} PushFreshExchange(idx: Index, x: Node)
    requires Valid(idx) && x.Exchange? && x.exchange !in idx.exchangesByName
    ensures Step(idx, PushExchange(idx, x), {x})
  {
    var next := idx.(exchanges := idx.exchanges + [x], exchangesByName := idx.exchangesByName[x.exchange := x]);
    IndexesAppend(idx.exchanges, idx.exchangesByName, true, x);
    FreshEntries(idx, next, x);
  }

  /** Storing `n` under its fresh slot keeps every old entry and adds only `n`. */
  lemma FreshEntries(idx: Index, next: Index, n: Node)
    requires Entry(idx, SlotOf(n)).None?
    requires n.Queue? ==> next == idx.(queues := idx.queues + [n], queuesByName := idx.queuesByName[n.queue := n])
    requires n.Exchange? ==>
               next == idx.(exchanges := idx.exchanges + [n], exchangesByName := idx.exchangesByName[n.exchange := n])
    ensures forall s :: Entry(idx, s).Some? ==> Entry(next, s) == Entry(idx, s)
    ensures forall s :: Entry(next, s).Some? && Entry(idx, s).None? ==> Entry(next, s).value in {n}
    ensures Entry(next, SlotOf(n)) == Some(n)
  {
  }

  // ---------------------------------------------------------------------
  // Composing pushes
  // ---------------------------------------------------------------------

  lemma RepresentsConsistent(idx: Index, next: Index, a: set<Node>)
    requires Represents(idx, next, a)
    ensures Consistent(idx, a)
  {
    forall t, u | t in a && u in a && SlotOf(t) == SlotOf(u)
      ensures Agree(t, u)
    {
      assert Agree(Entry(next, SlotOf(t)).value, t);
    }
  }

  /** After `a` was pushed, `b` is consistent with the result exactly when `a` and `b` together are consistent with the start. */
  lemma ConsistentAfter(idx: Index, mid: Index, a: set<Node>, b: set<Node>)
    requires Represents(idx, mid, a)
    ensures Consistent(mid, b) <==> Consistent(idx, a + b)
  {
    RepresentsConsistent(idx, mid, a);
    if Consistent(mid, b) {
      forall t | t in b && Entry(idx, SlotOf(t)).Some?
        ensures Agree(Entry(idx, SlotOf(t)).value, t)
      {
        assert Entry(mid, SlotOf(t)) == Entry(idx, SlotOf(t));
      }
      forall t, u | t in a + b && u in a + b && SlotOf(t) == SlotOf(u)
        ensures Agree(t, u)
      {
        if t in a && u in b {
          assert Agree(Entry(mid, SlotOf(t)).value, t);
        } else if t in b && u in a {
          assert Agree(Entry(mid, SlotOf(u)).value, u);
        }
      }
    }
    if Consistent(idx, a + b) {
      forall t | t in b && Entry(mid, SlotOf(t)).Some?
        ensures Agree(Entry(mid, SlotOf(t)).value, t)
      {
        if Entry(idx, SlotOf(t)).None? {
          var w := Entry(mid, SlotOf(t)).value;
          assert w in a;
          assert Valid(mid);
          assert SlotOf(w) == SlotOf(t);
        }
      }
    }
  }

  lemma RepresentsTrans(idx: Index, mid: Index, next: Index, a: set<Node>, b: set<Node>)
    requires Represents(idx, mid, a) && Represents(mid, next, b)
    ensures Represents(idx, next, a + b)
  {
    forall i | |idx.queues| <= i < |next.queues|
      ensures next.queues[i] in a + b
    {
      if i < |mid.queues| {
        assert next.queues[i] == mid.queues[i];
      }
    }
    forall i | |idx.exchanges| <= i < |next.exchanges|
      ensures next.exchanges[i] in a + b
    {
      if i < |mid.exchanges| {
        assert next.exchanges[i] == mid.exchanges[i];
      }
    }
  }

  /** Pushing `a` and then `b` is pushing `a + b`. */
  lemma StepThen(idx: Index, r: Result<Index>, next: Result<Index>, both: Result<Index>, a: set<Node>, b: set<Node>)
    requires Step(idx, r, a)
    requires r.Ok? ==> Step(r.value, next, b)
    requires both == if r.Ok? then next else r
    ensures Step(idx, both, a + b)
  {
    if r.Ok? {
      ConsistentAfter(idx, r.value, a, b);
      if next.Ok? {
        RepresentsTrans(idx, r.value, next.value, a, b);
      }
    }
  }

  lemma ElementsCons(s: seq<Node>)
    requires s != []
    ensures Elements(s) == {s[0]} + Elements(s[1..])
  {
    assert s == [s[0]] + s[1..];
  }

  lemma StepEmpty(idx: Index)
    requires Valid(idx)
    ensures Step(idx, Ok(idx), {})
  {
    assert Represents(idx, idx, {});
  }

  /** The names of the nodes of a list. */
  function NamesOf(xs: seq<Node>): set<string> {
    set x | x in xs :: Name(x)
  }

  function Elements(s: seq<Node>): set<Node> {
    set n | n in s
  }

  lemma {:induction false} PushQueuesStep(idx: Index, qs: seq<Node>)
    requires Valid(idx) && forall i :: 0 <= i < |qs| ==> qs[i].Queue?
    ensures Step(idx, PushQueues(idx, qs), Elements(qs))
    decreases |qs|
  {
    if qs == [] {
      StepEmpty(idx);
    } else {
      PushQueueStep(idx, qs[0]);
      var r := PushQueue(idx, qs[0]);
      var next := if r.Ok? then PushQueues(r.value, qs[1..]) else r;
      if r.Ok? {
        PushQueuesStep(r.value, qs[1..]);
      }
      StepThen(idx, r, next, PushQueues(idx, qs), {qs[0]}, Elements(qs[1..]));
      ElementsCons(qs);
    }
  }

  lemma {:induction false} PushExchangesStep(idx: Index, xs: seq<Node>)
    requires Valid(idx) && forall i :: 0 <= i < |xs| ==> xs[i].Exchange?
    ensures Step(idx, PushExchanges(idx, xs), Elements(xs))
    decreases |xs|
  {
    if xs == [] {
      StepEmpty(idx);
    } else {
      PushExchangeStep(idx, xs[0]);
      var r := PushExchange(idx, xs[0]);
      var next := if r.Ok? then PushExchanges(r.value, xs[1..]) else r;
      if r.Ok? {
        PushExchangesStep(r.value, xs[1..]);
      }
      StepThen(idx, r, next, PushExchanges(idx, xs), {xs[0]}, Elements(xs[1..]));
      ElementsCons(xs);
    }
  }

  /** The nodes `MergeInto` pushes. */
  function Merged(sub: Index, last: Option<Node>): set<Node> {
    Elements(sub.queues) + (Elements(sub.exchanges) + if last.Some? then {last.value} else {})
  }

  lemma MergeIntoStep(idx: Index, sub: Index, last: Option<Node>)
    requires Valid(idx) && (last.Some? ==> last.value.Exchange?)
    requires forall i :: 0 <= i < |sub.queues| ==> sub.queues[i].Queue?
    requires forall i :: 0 <= i < |sub.exchanges| ==> sub.exchanges[i].Exchange?
    ensures Step(idx, MergeInto(idx, sub, last), Merged(sub, last))
  {
    var tail: set<Node> := if last.Some? then {last.value} else {};
    PushQueuesStep(idx, sub.queues);
    var r1 := PushQueues(idx, sub.queues);
    var r23: Result<Index> := r1;
    if r1.Ok? {
      PushExchangesThenStep(r1.value, sub.exchanges, last);
      r23 := PushExchangesThen(r1.value, sub.exchanges, last);
    }
    StepThen(idx, r1, r23, MergeInto(idx, sub, last), Elements(sub.queues), Elements(sub.exchanges) + tail);
  }

  lemma PushExchangesThenStep(idx: Index, xs: seq<Node>, last: Option<Node>)
    requires Valid(idx) && (forall i :: 0 <= i < |xs| ==> xs[i].Exchange?) && (last.Some? ==> last.value.Exchange?)
    ensures Step(idx, PushExchangesThen(idx, xs, last), Elements(xs) + if last.Some? then {last.value} else {})
  {
    var tail: set<Node> := if last.Some? then {last.value} else {};
    PushExchangesStep(idx, xs);
    var r2 := PushExchanges(idx, xs);
    var r3: Result<Index> := r2;
    if r2.Ok? {
      if last.Some? {
        PushExchangeStep(r2.value, last.value);
        r3 := PushExchange(r2.value, last.value);
      } else {
        StepEmpty(r2.value);
        r3 := Ok(r2.value);
      }
    }
    StepThen(idx, r2, r3, PushExchangesThen(idx, xs, last), Elements(xs), tail);
  }

  /**
   * A sub-index `sub` built for the tree `t` stores one node for each name
   * in `t`. Pushing the nodes it stores (the set `s`) therefore has the same
   * outcome as pushing all of `t`.
   */
  lemma WidenToTree(idx: Index, r: Result<Index>, sub: Index, s: set<Node>, t: set<Node>)
    requires Represents(EmptyIndex, sub, t) && Step(idx, r, s) && s <= t
    requires forall k :: Entry(sub, k).Some? ==> Entry(sub, k).value in s
    ensures Step(idx, r, t)
  {
    RepresentsConsistent(EmptyIndex, sub, t);
    SubCovers(sub, s, t);
    WidenConsistent(idx, sub, s, t);
    if r.Ok? {
      WidenRepresents(idx, r.value, sub, s, t);
    }
  }

  /** Every node of `t` agrees with a node of `s` of the same kind and name, the one `sub` stores. */
  ghost predicate Covered(sub: Index, s: set<Node>, t: set<Node>) {
    forall x :: x in t ==>
      Entry(sub, SlotOf(x)).Some? && Entry(sub, SlotOf(x)).value in s &&
      SlotOf(Entry(sub, SlotOf(x)).value) == SlotOf(x) && Agree(Entry(sub, SlotOf(x)).value, x)
  }

  lemma SubCovers(sub: Index, s: set<Node>, t: set<Node>)
    requires Represents(EmptyIndex, sub, t)
    requires forall k :: Entry(sub, k).Some? ==> Entry(sub, k).value in s
    ensures Covered(sub, s, t)
  {
    forall x | x in t
      ensures Entry(sub, SlotOf(x)).Some? && Entry(sub, SlotOf(x)).value in s &&
              SlotOf(Entry(sub, SlotOf(x)).value) == SlotOf(x) && Agree(Entry(sub, SlotOf(x)).value, x)
    {
      EntrySlot(sub, SlotOf(x));
    }
  }

  /** A valid index stores each node under its own kind and name. */
  lemma EntrySlot(idx: Index, k: Slot)
    requires Valid(idx) && Entry(idx, k).Some?
    ensures SlotOf(Entry(idx, k).value) == k
  {
  }

  lemma WidenConsistent(idx: Index, sub: Index, s: set<Node>, t: set<Node>)
    requires Covered(sub, s, t) && Pairwise(t) && s <= t
    ensures Consistent(idx, s) <==> Consistent(idx, t)
  {
    if Consistent(idx, s) {
      forall x | x in t && Entry(idx, SlotOf(x)).Some?
        ensures Agree(Entry(idx, SlotOf(x)).value, x)
      {
        var y := Entry(sub, SlotOf(x)).value;
        assert y in s && SlotOf(y) == SlotOf(x);
      }
    }
  }

  lemma WidenRepresents(idx: Index, next: Index, sub: Index, s: set<Node>, t: set<Node>)
    requires Covered(sub, s, t) && Represents(idx, next, s) && s <= t
    ensures Represents(idx, next, t)
  {
    forall x | x in t
      ensures Entry(next, SlotOf(x)).Some? && Agree(Entry(next, SlotOf(x)).value, x)
    {
      var y := Entry(sub, SlotOf(x)).value;
      assert y in s && SlotOf(y) == SlotOf(x);
    }
  }

  /** What a valid index stores (`Entry`) are exactly the members of its lists. */
  lemma EntriesListed(sub: Index, last: Option<Node>)
    requires Valid(sub)
    ensures forall k :: Entry(sub, k).Some? ==> Entry(sub, k).value in Merged(sub, last)
  {
  }

  /** The nodes pushed from a sub-index built for `t`, and one more node of `t`, are nodes of `t`. */
  lemma MergedWithin(sub: Index, last: Option<Node>, t: set<Node>)
    requires Represents(EmptyIndex, sub, t) && (last.Some? ==> last.value in t)
    ensures Merged(sub, last) <= t
  {
    forall x | x in Merged(sub, last)
      ensures x in t
    {
      if x in Elements(sub.queues) {
        var i :| 0 <= i < |sub.queues| && sub.queues[i] == x;
      } else if x in Elements(sub.exchanges) {
        var i :| 0 <= i < |sub.exchanges| && sub.exchanges[i] == x;
      }
    }
  }

  // ---------------------------------------------------------------------
  // indexChildren: succeeds exactly when same-named nodes agree
  // ---------------------------------------------------------------------

  lemma {:induction false} IndexOfStep(n: Node)
    ensures Step(EmptyIndex, IndexOf(n), Nodes(n))
    decreases n, 3
  {
    IndexIntoStep(EmptyIndex, n);
  }

  lemma {:induction false} IndexIntoStep(idx: Index, n: Node)
    requires Valid(idx)
    ensures Step(idx, IndexInto(idx, n), Nodes(n))
    decreases n, 2
  {
    if n.Exchange? {
      IndexBindingsStep(idx, n, 0);
      var r := IndexBindings(idx, n, 0);
      var next := if r.Ok? then PushExchange(r.value, n) else r;
      if r.Ok? {
        PushExchangeStep(r.value, n);
      }
      StepThen(idx, r, next, IndexInto(idx, n), NodesFrom(n, 0), {n});
      assert NodesFrom(n, 0) + {n} == Nodes(n);
    } else {
      PushQueueStep(idx, n);
    }
  }

  lemma {:induction false} IndexBindingsStep(idx: Index, n: Node, i: nat)
    requires Valid(idx) && n.Exchange? && i <= |n.bindings|
    ensures Step(idx, IndexBindings(idx, n, i), NodesFrom(n, i))
    decreases n, 1, |n.bindings| - i
  {
    if i == |n.bindings| {
      StepEmpty(idx);
    } else {
      var d := n.bindings[i].destination;
      AddDestinationStep(idx, d);
      var r := AddDestination(idx, d);
      var next := if r.Ok? then IndexBindings(r.value, n, i + 1) else r;
      if r.Ok? {
        IndexBindingsStep(r.value, n, i + 1);
      }
      StepThen(idx, r, next, IndexBindings(idx, n, i), Nodes(d), NodesFrom(n, i + 1));
    }
  }

  lemma {:induction false} AddDestinationStep(idx: Index, d: Node)
    requires Valid(idx)
    ensures Step(idx, AddDestination(idx, d), Nodes(d))
    decreases d, 4
  {
    if d.Exchange? {
      IndexOfStep(d);
      var sub := IndexOf(d);
      if sub.Ok? {
        MergeIntoStep(idx, sub.value, Some(d));
        EntriesListed(sub.value, Some(d));
        MergedWithin(sub.value, Some(d), Nodes(d));
        WidenToTree(idx, AddDestination(idx, d), sub.value, Merged(sub.value, Some(d)), Nodes(d));
      } else {
        assert !Pairwise(Nodes(d));
        ClashAmong(sub.error, Nodes(d));
      }
    } else {
      PushQueueStep(idx, d);
    }
  }

  // ---------------------------------------------------------------------
  // _getChildren
  // ---------------------------------------------------------------------

  /** The nodes of every element of an array topology. */
  function AllNodes(items: seq<Node>): set<Node>
    decreases |items|
  {
    if items == [] then {} else Nodes(items[0]) + AllNodes(items[1..])
  }

  /** Every node of the topology a `Schema` is built from. */
  function RootNodes(root: Root): set<Node> {
    match root
    case Single(n) => Nodes(n)
    case Many(items) => AllNodes(items)
  }

  /** `subs[k]` is the index built for `items[k]`, for every `k`. */
  ghost predicate EachRepresents(subs: seq<Index>, items: seq<Node>)
    decreases |items|
  {
    |subs| == |items| &&
    (items != [] ==> Represents(EmptyIndex, subs[0], Nodes(items[0])) && EachRepresents(subs[1..], items[1..]))
  }

  /** Same-named nodes agree inside each element, taken one at a time. */
  predicate EachPairwise(items: seq<Node>)
    decreases |items|
  {
    items != [] ==> Pairwise(Nodes(items[0])) && EachPairwise(items[1..])
  }

  lemma {:induction false} SubIndexesSpec(items: seq<Node>)
    ensures SubIndexes(items).Ok? <==> EachPairwise(items)
    ensures SubIndexes(items).Err? ==> Clash(EmptyIndex, SubIndexes(items).error, AllNodes(items))
    ensures SubIndexes(items).Ok? ==> EachRepresents(SubIndexes(items).value, items)
    decreases |items|
  {
    if items != [] {
      IndexOfStep(items[0]);
      SubIndexesSpec(items[1..]);
      var e := SubIndexes(items);
      if IndexOf(items[0]).Err? {
        ClashWiden(EmptyIndex, e.error, Nodes(items[0]), AllNodes(items));
      } else if e.Err? {
        ClashWiden(EmptyIndex, e.error, AllNodes(items[1..]), AllNodes(items));
      }
    }
  }

  /** A clash among some nodes is a clash among more. */
  lemma ClashWiden(idx: Index, e: Error, a: set<Node>, b: set<Node>)
    requires Clash(idx, e, a) && a <= b
    ensures Clash(idx, e, b)
  {
    var t, u :| t in a && (u in a || Entry(idx, SlotOf(t)) == Some(u)) && Mismatch(u, t, e);
    assert t in b && (u in b || Entry(idx, SlotOf(t)) == Some(u));
  }

  /** One array element's queues and exchanges, merged: as if its whole tree were pushed. */
  lemma MergeOneStep(idx: Index, sub: Index, item: Node)
    requires Valid(idx) && Represents(EmptyIndex, sub, Nodes(item))
    ensures Step(idx, MergeInto(idx, sub, None), Nodes(item))
  {
    MergeIntoStep(idx, sub, None);
    EntriesListed(sub, None);
    MergedWithin(sub, None, Nodes(item));
    WidenToTree(idx, MergeInto(idx, sub, None), sub, Merged(sub, None), Nodes(item));
  }

  lemma {:induction false} MergeAllStep(idx: Index, subs: seq<Index>, items: seq<Node>)
    requires Valid(idx) && EachRepresents(subs, items)
    ensures Step(idx, MergeAll(idx, subs), AllNodes(items))
    decreases |subs|
  {
    if subs == [] {
      StepEmpty(idx);
    } else {
      MergeOneStep(idx, subs[0], items[0]);
      var r := MergeInto(idx, subs[0], None);
      var next := if r.Ok? then MergeAll(r.value, subs[1..]) else r;
      if r.Ok? {
        MergeAllStep(r.value, subs[1..], items[1..]);
      }
      StepThen(idx, r, next, MergeAll(idx, subs), Nodes(items[0]), AllNodes(items[1..]));
    }
  }

  lemma {:induction false} EachPairwiseOf(items: seq<Node>)
    ensures Pairwise(AllNodes(items)) ==> EachPairwise(items)
    decreases |items|
  {
    if items != [] {
      EachPairwiseOf(items[1..]);
      if Pairwise(AllNodes(items)) {
        PairwiseSub(Nodes(items[0]), AllNodes(items));
        PairwiseSub(AllNodes(items[1..]), AllNodes(items));
      }
    }
  }

  lemma PairwiseSub(a: set<Node>, b: set<Node>)
    requires a <= b && Pairwise(b)
    ensures Pairwise(a)
  {
  }

  lemma {:induction false} GetChildrenStep(root: Root)
    ensures Step(EmptyIndex, GetChildren(root), RootNodes(root))
  {
    match root
    case Single(n) => IndexOfStep(n);
    case Many(items) =>
      SubIndexesSpec(items);
      if SubIndexes(items).Ok? {
        MergeAllStep(EmptyIndex, SubIndexes(items).value, items);
      } else {
        EachPairwiseOf(items);
      }
  }

  // ---------------------------------------------------------------------
  // What `_getChildren` promises
  // ---------------------------------------------------------------------

  /**
   * Building the children succeeds exactly when every two queues with the
   * same name have equal `options || {}`, and every two exchanges with the
   * same name have equal `options || {}` and equal bindings; otherwise it
   * throws an assertion error naming a node that clashes with another of
   * the same kind and name: "mismatched options" when their `options || {}`
   * differ, else (for exchanges) "mismatched bindings". The exchange `type`
   * and the queue `messageSchema` are not compared.
   */
  lemma ChildrenSucceedIffAgree(root: Root)
    ensures GetChildren(root).Ok? <==> Pairwise(RootNodes(root))
    ensures GetChildren(root).Err? ==> GetChildren(root).error.kind == AssertionError
    ensures GetChildren(root).Err? ==>
              exists t, u :: t in RootNodes(root) && u in RootNodes(root) && Mismatch(u, t, GetChildren(root).error)
  {
    GetChildrenStep(root);
    if GetChildren(root).Err? {
      ClashAmong(GetChildren(root).error, RootNodes(root));
    }
  }

  /** Against the empty index, both nodes of a clash come from the pushed set. */
  lemma ClashAmong(e: Error, a: set<Node>)
    requires Clash(EmptyIndex, e, a)
    ensures exists t, u :: t in a && u in a && Mismatch(u, t, e)
  {
    var t, u :| t in a && (u in a || Entry(EmptyIndex, SlotOf(t)) == Some(u)) && Mismatch(u, t, e);
    EmptyEntry(SlotOf(t));
    assert u in a;
  }

  lemma EmptyEntry(k: Slot)
    ensures Entry(EmptyIndex, k) == None
  {
  }

  /**
   * On success the lists hold each queue and exchange name once, the maps
   * index them by name, everything stored comes from the topology, and
   * every node of the topology agrees with what is stored under its name.
   */
  lemma ChildrenIndexTree(root: Root)
    requires GetChildren(root).Ok?
    ensures Valid(GetChildren(root).value)
    ensures forall k :: Entry(GetChildren(root).value, k).Some? ==>
              Entry(GetChildren(root).value, k).value in RootNodes(root)
    ensures forall t :: t in RootNodes(root) ==>
              Entry(GetChildren(root).value, SlotOf(t)).Some? &&
              Agree(Entry(GetChildren(root).value, SlotOf(t)).value, t)
  {
    GetChildrenStep(root);
  }

  /** For a single exchange topology the root exchange is pushed last, so it ends the exchange list. */
  lemma RootExchangeLast(n: Node)
    requires n.Exchange? && IndexOf(n).Ok?
    ensures |IndexOf(n).value.exchanges| >= 1
    ensures IndexOf(n).value.exchanges[|IndexOf(n).value.exchanges| - 1] == n
  {
    IndexBindingsStep(EmptyIndex, n, 0);
    var mid := IndexBindings(EmptyIndex, n, 0).value;
    if n.exchange in mid.exchangesByName {
      var e := mid.exchangesByName[n.exchange];
      assert Entry(mid, ExchangeSlot(n.exchange)) == Some(e);
      assert e in NodesFrom(n, 0) && e.Exchange?;
      NoDescendantSharesBindings(e, n);
    }
  }

  /** A topology that is one queue has just that queue as its children. */
  lemma QueueRootChildren(n: Node)
    requires n.Queue?
    ensures GetChildren(Single(n)) == Ok(Index([n], [], map[n.queue := n], map[]))
  {
    assert IndexOf(n) == IndexInto(EmptyIndex, n) == PushQueue(EmptyIndex, n);
    assert Name(n) == n.queue && Name(n) !in EmptyIndex.queuesByName;
    assert EmptyIndex.queues + [n] == [n];
    assert EmptyIndex.queuesByName[n.queue := n] == map[n.queue := n];
  }
}
