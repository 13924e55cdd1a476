/**
 * The read-only queries of a built `Schema` (lib/schema.js:245-328): the
 * lists of unique queues and exchanges, lookups by name, and the bindings
 * with their destinations resolved through those lookups.
 */
module SchemaQueries {
  import opened JsValues
  import opened Topology
  import opened Children

  /** A `Schema` instance: the topology it was built from and its children. */
  datatype Schema = Schema(root: Root, children: Index)

  /** `new Schema(value)` once validation has passed: the children are computed, or their error thrown. */
  function Build(root: Root): Result<Schema> {
    match GetChildren(root)
    case Err(e) => Err(e)
    case Ok(children) => Ok(Schema(root, children))
  }

  /** A binding as `getBindings` returns it: `args` and `routingPattern`, plus `source` and the resolved `destination`. */
  datatype ResolvedBinding = ResolvedBinding(
    args: Option<Json>,
    routingPattern: Option<string>,
    source: Node,
    destination: Option<Node>)

  /** `getExchanges` (lib/schema.js:245-247). */
  function GetExchanges(s: Schema): seq<Node> {
    s.children.exchanges
  }

  /** `getQueues` (lib/schema.js:252-254). */
  function GetQueues(s: Schema): seq<Node> {
    s.children.queues
  }

  /** `getExchangeByName` (lib/schema.js:307-315): the schema itself when its name matches, else the index. */
  function GetExchangeByName(s: Schema, name: string): Option<Node> {
    if s.root.Single? && s.root.node.Exchange? && s.root.node.exchange == name then Some(s.root.node)
    else if name in s.children.exchangesByName then Some(s.children.exchangesByName[name])
    else None
  }

  /** `getQueueByName` (lib/schema.js:320-328). */
  function GetQueueByName(s: Schema, name: string): Option<Node> {
    if s.root.Single? && s.root.node.Queue? && s.root.node.queue == name then Some(s.root.node)
    else if name in s.children.queuesByName then Some(s.children.queuesByName[name])
    else None
  }

  /** A binding's destination looked up by name: as an exchange when it is one, else as a queue. */
  function Resolve(s: Schema, source: Node, b: Binding): ResolvedBinding {
    var dest := if b.destination.Exchange? then GetExchangeByName(s, b.destination.exchange)
                else GetQueueByName(s, b.destination.queue);
    ResolvedBinding(b.args, b.routingPattern, source, dest)
  }

  /** Every binding of `source.bindings[i..]`, resolved. */
  function ResolveFrom(s: Schema, source: Node, bindings: seq<Binding>): (r: seq<ResolvedBinding>)
    ensures |r| == |bindings|
    ensures forall k :: 0 <= k < |r| ==> r[k] == Resolve(s, source, bindings[k])
    decreases |bindings|
  {
    if bindings == [] then [] else [Resolve(s, source, bindings[0])] + ResolveFrom(s, source, bindings[1..])
  }

  /** The bindings of every exchange of `xs`, in order. */
  function BindingsOfAll(s: Schema, xs: seq<Node>): seq<ResolvedBinding>
    decreases |xs|
  {
    if xs == [] then [] else ResolveFrom(s, xs[0], BindingsOf(xs[0])) + BindingsOfAll(s, xs[1..])
  }

  /** `getBindings` (lib/schema.js:261-280). */
  function GetBindings(s: Schema): seq<ResolvedBinding> {
    BindingsOfAll(s, GetExchanges(s))
  }

  /** `getDirectBindings` (lib/schema.js:287-302): `this.bindings || []`. */
  function GetDirectBindings(s: Schema): seq<ResolvedBinding> {
    if s.root.Single? && s.root.node.Exchange? then ResolveFrom(s, s.root.node, s.root.node.bindings) else []
  }

  // ---------------------------------------------------------------------
  // Properties of a built schema
  // ---------------------------------------------------------------------

  /** The exchange names of a topology. */
  function ExchangeNames(nodes: set<Node>): set<string> {
    set t | t in nodes && t.Exchange? :: t.exchange
  }

  /** The queue names of a topology. */
  function QueueNames(nodes: set<Node>): set<string> {
    set t | t in nodes && t.Queue? :: t.queue
  }

  /**
   * `getExchanges` lists every exchange name of the topology exactly once,
   * and only exchanges of the topology; likewise `getQueues` for queues.
   */
  lemma ListsCoverTopology(root: Root)
    requires Build(root).Ok?
    ensures var xs := GetExchanges(Build(root).value);
            NamesOf(xs) == ExchangeNames(RootNodes(root)) &&
            (forall i :: 0 <= i < |xs| ==> xs[i].Exchange? && xs[i] in RootNodes(root)) &&
            (forall i, j :: 0 <= i < j < |xs| ==> Name(xs[i]) != Name(xs[j]))
    ensures var qs := GetQueues(Build(root).value);
            NamesOf(qs) == QueueNames(RootNodes(root)) &&
            (forall i :: 0 <= i < |qs| ==> qs[i].Queue? && qs[i] in RootNodes(root)) &&
            (forall i, j :: 0 <= i < j < |qs| ==> Name(qs[i]) != Name(qs[j]))
  {
    ChildrenIndexTree(root);
    var idx := GetChildren(root).value;
    assert Build(root).value.children == idx;
    ExchangesCover(idx, RootNodes(root));
    QueuesCover(idx, RootNodes(root));
  }

  /** An index holding exactly the nodes of `nodes` (up to agreement) stores something under each of their slots, and only their nodes. */
  ghost predicate IndexesTree(idx: Index, nodes: set<Node>) {
    Valid(idx) &&
    (forall k :: Entry(idx, k).Some? ==> Entry(idx, k).value in nodes) &&
    (forall t :: t in nodes ==> Entry(idx, SlotOf(t)).Some? && Agree(Entry(idx, SlotOf(t)).value, t))
  }

  lemma ExchangesCover(idx: Index, nodes: set<Node>)
    requires IndexesTree(idx, nodes)
    ensures NamesOf(idx.exchanges) == ExchangeNames(nodes)
    ensures forall i :: 0 <= i < |idx.exchanges| ==> idx.exchanges[i].Exchange? && idx.exchanges[i] in nodes
  {
    ExchangesListed(idx, nodes);
    ListedExchangeNames(idx, nodes);
    TreeExchangeNames(idx, nodes);
  }

  lemma ListedExchangeNames(idx: Index, nodes: set<Node>)
    requires forall i :: 0 <= i < |idx.exchanges| ==> idx.exchanges[i].Exchange? && idx.exchanges[i] in nodes
    ensures NamesOf(idx.exchanges) <= ExchangeNames(nodes)
  {
    forall k | k in NamesOf(idx.exchanges)
      ensures k in ExchangeNames(nodes)
    {
      var x :| x in idx.exchanges && Name(x) == k;
      var i :| 0 <= i < |idx.exchanges| && idx.exchanges[i] == x;
    }
  }

  lemma TreeExchangeNames(idx: Index, nodes: set<Node>)
    requires forall t :: t in nodes ==> Entry(idx, SlotOf(t)).Some?
    requires forall k :: k in idx.exchangesByName ==>
               idx.exchangesByName[k] in idx.exchanges && Name(idx.exchangesByName[k]) == k
    ensures ExchangeNames(nodes) <= NamesOf(idx.exchanges)
  {
    forall k | k in ExchangeNames(nodes)
      ensures k in NamesOf(idx.exchanges)
    {
      var t :| t in nodes && t.Exchange? && t.exchange == k;
      assert Entry(idx, SlotOf(t)).Some?;
      var e := idx.exchangesByName[k];
      assert e in idx.exchanges && Name(e) == k;
    }
  }

  lemma ExchangesListed(idx: Index, nodes: set<Node>)
    requires IndexesTree(idx, nodes)
    ensures forall i :: 0 <= i < |idx.exchanges| ==> idx.exchanges[i].Exchange? && idx.exchanges[i] in nodes
  {
    forall i | 0 <= i < |idx.exchanges|
      ensures idx.exchanges[i] in nodes
    {
      assert Entry(idx, ExchangeSlot(Name(idx.exchanges[i]))).Some?;
    }
  }

  lemma QueuesCover(idx: Index, nodes: set<Node>)
    requires IndexesTree(idx, nodes)
    ensures NamesOf(idx.queues) == QueueNames(nodes)
    ensures forall i :: 0 <= i < |idx.queues| ==> idx.queues[i].Queue? && idx.queues[i] in nodes
  {
    QueuesListed(idx, nodes);
    ListedQueueNames(idx, nodes);
    TreeQueueNames(idx, nodes);
  }

  lemma QueuesListed(idx: Index, nodes: set<Node>)
    requires IndexesTree(idx, nodes)
    ensures forall i :: 0 <= i < |idx.queues| ==> idx.queues[i].Queue? && idx.queues[i] in nodes
  {
    forall i | 0 <= i < |idx.queues|
      ensures idx.queues[i] in nodes
    {
      assert Entry(idx, QueueSlot(Name(idx.queues[i]))).Some?;
    }
  }

  lemma ListedQueueNames(idx: Index, nodes: set<Node>)
    requires forall i :: 0 <= i < |idx.queues| ==> idx.queues[i].Queue? && idx.queues[i] in nodes
    ensures NamesOf(idx.queues) <= QueueNames(nodes)
  {
    forall k | k in NamesOf(idx.queues)
      ensures k in QueueNames(nodes)
    {
      var x :| x in idx.queues && Name(x) == k;
      var i :| 0 <= i < |idx.queues| && idx.queues[i] == x;
    }
  }

  lemma TreeQueueNames(idx: Index, nodes: set<Node>)
    requires forall t :: t in nodes ==> Entry(idx, SlotOf(t)).Some?
    requires forall k :: k in idx.queuesByName ==>
               idx.queuesByName[k] in idx.queues && Name(idx.queuesByName[k]) == k
    ensures QueueNames(nodes) <= NamesOf(idx.queues)
  {
    forall k | k in QueueNames(nodes)
      ensures k in NamesOf(idx.queues)
    {
      var t :| t in nodes && t.Queue? && t.queue == k;
      assert Entry(idx, SlotOf(t)).Some?;
      var e := idx.queuesByName[k];
      assert e in idx.queues && Name(e) == k;
    }
  }

  function SlotsOf(nodes: set<Node>): set<Slot> {
    set t | t in nodes :: SlotOf(t)
  }

  /**
   * What the index stores under a slot: something exactly when the topology
   * has a node of that kind and name, and then a node of the topology that
   * agrees with every such node.
   */
  lemma EntryMeaning(root: Root, k: Slot)
    requires GetChildren(root).Ok?
    ensures var e := Entry(GetChildren(root).value, k);
            (e.Some? <==> k in SlotsOf(RootNodes(root))) &&
            (e.Some? ==> SlotOf(e.value) == k && e.value in RootNodes(root) &&
                         forall t :: t in RootNodes(root) && SlotOf(t) == k ==> Agree(e.value, t))
  {
    ChildrenIndexTree(root);
    EntryIn(GetChildren(root).value, RootNodes(root), k);
  }

  lemma EntryIn(idx: Index, nodes: set<Node>, k: Slot)
    requires IndexesTree(idx, nodes)
    ensures var e := Entry(idx, k);
            (e.Some? <==> k in SlotsOf(nodes)) &&
            (e.Some? ==> SlotOf(e.value) == k && e.value in nodes &&
                         forall t :: t in nodes && SlotOf(t) == k ==> Agree(e.value, t))
  {
    if k in SlotsOf(nodes) {
      var t :| t in nodes && SlotOf(t) == k;
      assert Entry(idx, SlotOf(t)).Some?;
    }
    if Entry(idx, k).Some? {
      EntrySlot(idx, k);
    }
  }

  /**
   * `getExchangeByName` finds every exchange name of the topology and no other,
   * and returns an exchange of the topology that agrees (equal options and
   * bindings) with every exchange of that name.
   */
  lemma ExchangeLookup(root: Root, name: string)
    requires Build(root).Ok?
    ensures var x := GetExchangeByName(Build(root).value, name);
            (x.Some? <==> name in ExchangeNames(RootNodes(root))) &&
            (x.Some? ==> x.value.Exchange? && x.value.exchange == name && x.value in RootNodes(root) &&
                         forall t :: t in RootNodes(root) && t.Exchange? && t.exchange == name ==> Agree(x.value, t))
  {
    ShortcutAgrees(root, name);
    EntryMeaning(root, ExchangeSlot(name));
    if name in ExchangeNames(RootNodes(root)) {
      var t :| t in RootNodes(root) && t.Exchange? && t.exchange == name;
      assert SlotOf(t) == ExchangeSlot(name);
    }
    if ExchangeSlot(name) in SlotsOf(RootNodes(root)) {
      var t :| t in RootNodes(root) && SlotOf(t) == ExchangeSlot(name);
      assert t.Exchange? && t.exchange == name;
    }
    forall t | t in RootNodes(root) && t.Exchange? && t.exchange == name
      ensures SlotOf(t) == ExchangeSlot(name)
    {
    }
  }

  /** `getQueueByName`, likewise for queues. */
  lemma QueueLookup(root: Root, name: string)
    requires Build(root).Ok?
    ensures var q := GetQueueByName(Build(root).value, name);
            (q.Some? <==> name in QueueNames(RootNodes(root))) &&
            (q.Some? ==> q.value.Queue? && q.value.queue == name && q.value in RootNodes(root) &&
                         forall t :: t in RootNodes(root) && t.Queue? && t.queue == name ==> Agree(q.value, t))
  {
    ShortcutAgrees(root, name);
    EntryMeaning(root, QueueSlot(name));
    if name in QueueNames(RootNodes(root)) {
      var t :| t in RootNodes(root) && t.Queue? && t.queue == name;
      assert SlotOf(t) == QueueSlot(name);
    }
    if QueueSlot(name) in SlotsOf(RootNodes(root)) {
      var t :| t in RootNodes(root) && SlotOf(t) == QueueSlot(name);
      assert t.Queue? && t.queue == name;
    }
    forall t | t in RootNodes(root) && t.Queue? && t.queue == name
      ensures SlotOf(t) == QueueSlot(name)
    {
    }
  }

  /**
   * The root shortcut of the lookups gives what the index alone would: the
   * root of a built single topology is indexed under its own name.
   */
  /**
   * The queue `getQueueByName` finds is the entry stored first under the
   * name, the root itself when the root is that queue, and is listed by
   * `getQueues`.
   */
  lemma QueueStoredFirst(root: Root, name: string)
    requires Build(root).Ok?
    ensures var s := Build(root).value;
            var q := GetQueueByName(s, name);
            (q.Some? <==> name in QueueNames(RootNodes(root))) &&
            (q.Some? ==>
               Entry(s.children, QueueSlot(name)) == q && q.value.Queue? && q.value.queue == name &&
               q.value in RootNodes(root) && q.value in GetQueues(s) &&
               (root.Single? && root.node.Queue? && root.node.queue == name ==> q.value == root.node))
  {
    var s := Build(root).value;
    QueueLookup(root, name);
    ShortcutAgrees(root, name);
    ChildrenIndexTree(root);
    if GetQueueByName(s, name).Some? {
      assert s.children.queuesByName[name] == GetQueueByName(s, name).value;
    }
  }

  /**
   * The exchange `getExchangeByName` finds is the entry stored first under
   * the name, the root itself when the root is that exchange, and is listed
   * by `getExchanges`.
   */
  lemma ExchangeStoredFirst(root: Root, name: string)
    requires Build(root).Ok?
    ensures var s := Build(root).value;
            var x := GetExchangeByName(s, name);
            (x.Some? <==> name in ExchangeNames(RootNodes(root))) &&
            (x.Some? ==>
               Entry(s.children, ExchangeSlot(name)) == x && x.value.Exchange? && x.value.exchange == name &&
               x.value in RootNodes(root) && x.value in GetExchanges(s) &&
               (root.Single? && root.node.Exchange? && root.node.exchange == name ==> x.value == root.node))
  {
    var s := Build(root).value;
    ExchangeLookup(root, name);
    ShortcutAgrees(root, name);
    ChildrenIndexTree(root);
    if GetExchangeByName(s, name).Some? {
      assert s.children.exchangesByName[name] == GetExchangeByName(s, name).value;
    }
  }

  lemma ShortcutAgrees(root: Root, name: string)
    requires Build(root).Ok?
    ensures GetExchangeByName(Build(root).value, name) == Entry(GetChildren(root).value, ExchangeSlot(name))
    ensures GetQueueByName(Build(root).value, name) == Entry(GetChildren(root).value, QueueSlot(name))
  {
    ExchangeShortcut(root, name);
    QueueShortcut(root, name);
  }

  lemma ExchangeShortcut(root: Root, name: string)
    requires Build(root).Ok?
    ensures GetExchangeByName(Build(root).value, name) == Entry(GetChildren(root).value, ExchangeSlot(name))
  {
    if root.Single? && root.node.Exchange? && root.node.exchange == name {
      var idx := GetChildren(root).value;
      ChildrenIndexTree(root);
      RootExchangeLast(root.node);
      assert idx.exchanges[|idx.exchanges| - 1] == root.node;
    }
  }

  lemma QueueShortcut(root: Root, name: string)
    requires Build(root).Ok?
    ensures GetQueueByName(Build(root).value, name) == Entry(GetChildren(root).value, QueueSlot(name))
  {
    if root.Single? && root.node.Queue? {
      QueueRootChildren(root.node);
    }
  }

  /** Each entry's source is one of `xs` and its destination was found in the topology. */
  ghost predicate AllResolved(bs: seq<ResolvedBinding>, xs: seq<Node>, nodes: set<Node>) {
    forall k :: 0 <= k < |bs| ==>
      bs[k].source in xs && bs[k].destination.Some? && bs[k].destination.value in nodes
  }

  /** Every binding `getBindings` returns has its source among the exchanges and a destination found in the topology. */
  lemma BindingsResolved(root: Root)
    requires Build(root).Ok?
    ensures AllResolved(GetBindings(Build(root).value), GetExchanges(Build(root).value), RootNodes(root))
  {
    var s := Build(root).value;
    ListsCoverTopology(root);
    ResolvedFromAll(root, s, s.children.exchanges);
  }

  lemma {:induction false} ResolvedFromAll(root: Root, s: Schema, xs: seq<Node>)
    requires Build(root) == Ok(s)
    requires forall i :: 0 <= i < |xs| ==> xs[i].Exchange? && xs[i] in RootNodes(root)
    ensures AllResolved(BindingsOfAll(s, xs), xs, RootNodes(root))
    decreases |xs|
  {
    if xs != [] {
      ResolvedFromAll(root, s, xs[1..]);
      var here := ResolveFrom(s, xs[0], BindingsOf(xs[0]));
      forall k | 0 <= k < |here|
        ensures here[k].destination.Some? && here[k].destination.value in RootNodes(root)
      {
        DestinationResolved(root, xs[0], k);
      }
      var rest := BindingsOfAll(s, xs[1..]);
      assert BindingsOfAll(s, xs) == here + rest;
      forall k | 0 <= k < |rest|
        ensures rest[k].source in xs
      {
        assert rest[k].source in xs[1..];
      }
    }
  }

  /** The destination of binding `j` of an exchange of the topology is found by name. */
  lemma DestinationResolved(root: Root, x: Node, j: nat)
    requires Build(root).Ok? && x.Exchange? && x in RootNodes(root) && j < |x.bindings|
    ensures var r := Resolve(Build(root).value, x, x.bindings[j]);
            r.destination.Some? && r.destination.value in RootNodes(root) &&
            SlotOf(r.destination.value) == SlotOf(x.bindings[j].destination) &&
            Agree(r.destination.value, x.bindings[j].destination)
  {
    var d := x.bindings[j].destination;
    DestinationInTopology(root, x, j);
    if d.Exchange? {
      ExchangeLookup(root, d.exchange);
    } else {
      QueueLookup(root, d.queue);
    }
  }

  /** A destination of a node of the topology is a node of the topology. */
  lemma DestinationInTopology(root: Root, x: Node, j: nat)
    requires x.Exchange? && x in RootNodes(root) && j < |x.bindings|
    ensures x.bindings[j].destination in RootNodes(root)
  {
    DestinationNodes(x, 0, j);
    match root
    case Single(n) => NodesClosed(n, x);
    case Many(items) => AllNodesClosed(items, x);
  }

  /** The nodes of a node of `Nodes(n)` lie inside `Nodes(n)`. */
  lemma {:induction false} NodesClosed(n: Node, x: Node)
    requires x in Nodes(n)
    ensures Nodes(x) <= Nodes(n)
    decreases n, 1
  {
    if x != n {
      NodesFromClosed(n, 0, x);
    }
  }

  lemma {:induction false} NodesFromClosed(n: Node, i: nat, x: Node)
    requires n.Exchange? && i <= |n.bindings| && x in NodesFrom(n, i)
    ensures Nodes(x) <= NodesFrom(n, i)
    decreases n, 0, |n.bindings| - i
  {
    var d := n.bindings[i].destination;
    if x in Nodes(d) {
      NodesClosed(d, x);
    } else {
      NodesFromClosed(n, i + 1, x);
    }
  }

  lemma {:induction false} AllNodesClosed(items: seq<Node>, x: Node)
    requires x in AllNodes(items)
    ensures Nodes(x) <= AllNodes(items)
    decreases |items|
  {
    if x in Nodes(items[0]) {
      NodesClosed(items[0], x);
    } else {
      AllNodesClosed(items[1..], x);
    }
  }

  /** `getBindings` returns one entry per binding of every listed exchange. */
  lemma {:induction false} BindingsCount(s: Schema, xs: seq<Node>)
    ensures |BindingsOfAll(s, xs)| == TotalBindings(xs)
    decreases |xs|
  {
    if xs != [] {
      BindingsCount(s, xs[1..]);
    }
  }

  /**
   * `getBindings` lists the exchanges' bindings exchange by exchange, in the
   * order of `getExchanges`, and each exchange's in its own order: binding
   * `j` of exchange `i` sits after all bindings of the exchanges before it.
   * It keeps the binding's `args` and `routingPattern`, has that exchange as
   * its `source`, and the destination looked up by name.
   */
  lemma {:induction false} BindingsInOrder(s: Schema, xs: seq<Node>, i: nat, j: nat)
    requires i < |xs| && j < |BindingsOf(xs[i])|
    ensures TotalBindings(xs[..i]) + j < |BindingsOfAll(s, xs)|
    ensures var b, r := BindingsOf(xs[i])[j], BindingsOfAll(s, xs)[TotalBindings(xs[..i]) + j];
            r == Resolve(s, xs[i], b) &&
            r.source == xs[i] && r.args == b.args && r.routingPattern == b.routingPattern
    decreases i
  {
    BindingsCount(s, xs);
    var here := ResolveFrom(s, xs[0], BindingsOf(xs[0]));
    var rest := BindingsOfAll(s, xs[1..]);
    assert BindingsOfAll(s, xs) == here + rest;
    if i == 0 {
      assert xs[..0] == [];
    } else {
      BindingsInOrder(s, xs[1..], i - 1, j);
      assert xs[..i][0] == xs[0] && xs[..i][1..] == xs[1..][..i - 1];
      assert TotalBindings(xs[..i]) == |here| + TotalBindings(xs[1..][..i - 1]);
    }
  }

  /** `getBindings` of a schema, in the terms of `BindingsInOrder`. */
  lemma GetBindingsInOrder(s: Schema, i: nat, j: nat)
    requires i < |GetExchanges(s)| && j < |BindingsOf(GetExchanges(s)[i])|
    ensures |GetBindings(s)| == TotalBindings(GetExchanges(s))
    ensures TotalBindings(GetExchanges(s)[..i]) + j < |GetBindings(s)|
    ensures var xs := GetExchanges(s);
            var b, r := BindingsOf(xs[i])[j], GetBindings(s)[TotalBindings(xs[..i]) + j];
            r.source == xs[i] && r.args == b.args && r.routingPattern == b.routingPattern &&
            r.destination == (if b.destination.Exchange? then GetExchangeByName(s, b.destination.exchange)
                              else GetQueueByName(s, b.destination.queue))
  {
    BindingsCount(s, GetExchanges(s));
    BindingsInOrder(s, GetExchanges(s), i, j);
  }

  function TotalBindings(xs: seq<Node>): nat
    decreases |xs|
  {
    if xs == [] then 0 else |BindingsOf(xs[0])| + TotalBindings(xs[1..])
  }

  /**
   * `getDirectBindings` of an exchange topology resolves each of the root's
   * own bindings, in order, with the root as source; for a queue or an
   * array topology there are none.
   */
  lemma DirectBindingsOfRoot(root: Root)
    requires Build(root).Ok?
    ensures var s := Build(root).value;
            var ds := GetDirectBindings(s);
            (root.Single? && root.node.Exchange? ==>
               |ds| == |root.node.bindings| &&
               forall j :: 0 <= j < |ds| ==>
                 ds[j].source == root.node &&
                 ds[j].args == root.node.bindings[j].args &&
                 ds[j].routingPattern == root.node.bindings[j].routingPattern &&
                 ds[j].destination ==
                   (var d := root.node.bindings[j].destination;
                    if d.Exchange? then GetExchangeByName(s, d.exchange) else GetQueueByName(s, d.queue)) &&
                 ds[j].destination.Some? &&
                 SlotOf(ds[j].destination.value) == SlotOf(root.node.bindings[j].destination) &&
                 ds[j].destination.value in RootNodes(root) &&
                 Agree(ds[j].destination.value, root.node.bindings[j].destination)) &&
            (!(root.Single? && root.node.Exchange?) ==> ds == [])
  {
    if root.Single? && root.node.Exchange? {
      var n := root.node;
      forall j | 0 <= j < |n.bindings|
        ensures var r := Resolve(Build(root).value, n, n.bindings[j]);
                r.destination.Some? && r.destination.value in RootNodes(root) &&
                SlotOf(r.destination.value) == SlotOf(n.bindings[j].destination) &&
                Agree(r.destination.value, n.bindings[j].destination)
      {
        DestinationResolved(root, n, j);
      }
    }
  }
}
