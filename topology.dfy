/**
 * A validated RabbitMQ routing topology (lib/schema.js): a queue, or an
 * exchange whose bindings lead to further queues and exchanges.
 */
module Topology {
  import opened JsValues

  /**
   * One topology element, with the JSON properties the engine reads.
   * `exchangeType` is the JSON property `type`.
   */
  datatype Node =
    | Queue(queue: string, options: Option<Json>, messageSchema: Json)
    | Exchange(exchange: string, exchangeType: string, options: Option<Json>, bindings: seq<Binding>)

  /** An exchange binding; `routingKey` is carried but never read by the routing walk. */
  datatype Binding = Binding(
    destination: Node,
    args: Option<Json>,
    routingPattern: Option<string>,
    routingKey: Option<string>)

  /** What `new Schema(value)` accepts: one connected topology, or an array of them. */
  datatype Root = Single(node: Node) | Many(items: seq<Node>)

  /** `queue.queue` or `exchange.exchange`. */
  function Name(n: Node): string {
    if n.Queue? then n.queue else n.exchange
  }

  /** `options || {}`: a missing or falsy `options` (`null`, `false`, `0`, `''`) counts as `{}`. */
  function OptionsOrEmpty(options: Option<Json>): (r: Json)
    ensures options.Some? && TruthyJson(options.value) ==> r == options.value
    ensures !(options.Some? && TruthyJson(options.value)) ==> r == JObj(map[])
    ensures TruthyJson(r)
  {
    if options.Some? && TruthyJson(options.value) then options.value else JObj(map[])
  }

  /** The number of nodes in a tree. */
  function Size(n: Node): (r: nat)
    ensures r >= 1
    decreases n, 1
  {
    if n.Queue? then 1 else 1 + SizeFrom(n, 0)
  }

  /** The sizes of the destinations of `n.bindings[i..]`, added up. */
  function SizeFrom(n: Node, i: nat): nat
    requires n.Exchange? && i <= |n.bindings|
    decreases n, 0, |n.bindings| - i
  {
    if i == |n.bindings| then 0 else Size(n.bindings[i].destination) + SizeFrom(n, i + 1)
  }

  lemma {:induction false} SizeFromCovers(n: Node, i: nat, j: nat)
    requires n.Exchange? && i <= j < |n.bindings|
    ensures Size(n.bindings[j].destination) <= SizeFrom(n, i)
    decreases j - i
  {
    if i < j {
      SizeFromCovers(n, i + 1, j);
    }
  }

  /** Every destination is smaller than the exchange that binds it. */
  lemma DestinationSmaller(n: Node, j: nat)
    requires n.Exchange? && j < |n.bindings|
    ensures Size(n.bindings[j].destination) < Size(n)
  {
    SizeFromCovers(n, 0, j);
  }

  /** Every node of a tree: the node itself and everything its bindings lead to. */
  function Nodes(n: Node): (r: set<Node>)
    ensures n in r
    decreases n, 1
  {
    if n.Queue? then {n} else {n} + NodesFrom(n, 0)
  }

  /** The nodes reached through `n.bindings[i..]`. */
  function NodesFrom(n: Node, i: nat): set<Node>
    requires n.Exchange? && i <= |n.bindings|
    decreases n, 0, |n.bindings| - i
  {
    if i == |n.bindings| then {} else Nodes(n.bindings[i].destination) + NodesFrom(n, i + 1)
  }

  lemma {:induction false} NodesFromSmaller(n: Node, i: nat, t: Node)
    requires n.Exchange? && i <= |n.bindings| && t in NodesFrom(n, i)
    ensures Size(t) < Size(n)
    decreases n, 0, |n.bindings| - i
  {
    if t in Nodes(n.bindings[i].destination) {
      DestinationSmaller(n, i);
      NodesSmaller(n.bindings[i].destination, t);
    } else {
      NodesFromSmaller(n, i + 1, t);
    }
  }

  lemma {:induction false} NodesSmaller(n: Node, t: Node)
    requires t in Nodes(n)
    ensures Size(t) <= Size(n)
    decreases n, 1
  {
    if t != n {
      NodesFromSmaller(n, 0, t);
    }
  }

  /**
   * No exchange strictly inside a tree has exactly the bindings of the
   * tree's root: the root is strictly larger than anything below it.
   */
  lemma NoDescendantSharesBindings(d: Node, n: Node)
    requires n.Exchange? && d.Exchange? && d in NodesFrom(n, 0)
    ensures d.bindings != n.bindings
  {
    NodesFromSmaller(n, 0, d);
    if d.bindings == n.bindings {
      SizeFromSameBindings(d, n, 0);
    }
  }

  /** The size of an exchange depends on its bindings alone. */
  lemma {:induction false} SizeFromSameBindings(d: Node, n: Node, i: nat)
    requires n.Exchange? && d.Exchange? && d.bindings == n.bindings && i <= |n.bindings|
    ensures SizeFrom(d, i) == SizeFrom(n, i)
    decreases |n.bindings| - i
  {
    if i < |n.bindings| {
      SizeFromSameBindings(d, n, i + 1);
    }
  }

  /** A destination's tree lies inside the tree of the exchange binding it. */
  lemma {:induction false} DestinationNodes(n: Node, i: nat, j: nat)
    requires n.Exchange? && i <= j < |n.bindings|
    ensures Nodes(n.bindings[j].destination) <= NodesFrom(n, i)
    decreases j - i
  {
    if i < j {
      DestinationNodes(n, i + 1, j);
    }
  }
}
