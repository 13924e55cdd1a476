# rabbitmq-schema, modelled in Dafny

This project models the core of `rabbitmq-schema`, a library that describes
a RabbitMQ routing topology as JSON and checks it. A topology is a queue,
or an exchange (`direct`, `topic` or `fanout`) whose bindings lead to
further queues and exchanges. It can also be an array of such topologies.
The model covers four parts of the library:

- `new Schema(value)` gathers the *children* of a topology (`_getChildren`).
  The children are the lists of unique queues and exchanges, each list also
  indexed by name. A name defined twice must agree with its first
  definition, or the constructor throws an assertion error.
- The read-only queries of a schema: `getExchanges`, `getQueues`,
  `getBindings`, `getDirectBindings`, `getExchangeByName` and
  `getQueueByName`.
- `validateMessage`. It sends a message to an exchange with a routing key,
  or straight to a queue. It follows every binding whose pattern matches
  (direct: equal; topic: `topicPatternTest`; fanout: always) and checks the
  message against every queue it reaches. One shared `_state` records
  whether any queue was reached.
- Topology validation (`Schema.validate`, `_validateQueue`,
  `_validateExchange`) and the error messages of `SchemaValidationError`.

Pure code becomes datatypes, functions and lemmas. This covers the topic
matcher, `pushQueue`/`pushExchange`, the queries and the error messages.
Code that updates state in place becomes classes with loops:

- `ChildrenIndexer.Indexer` is the `children` object. Its push methods
  update the lists and maps.
- `Routing.RoutingState` is the `_state` flag. The recursive
  `_exchangeValidateMessage` walk sets it.

Each method is proved equal to a specification function. Lemmas then state
what that function means.

Module layout:

| file | module | models |
|---|---|---|
| js_values.dfy | `JsValues` | JSON values, JS truthiness, thrown errors, number-to-text |
| topology.dfy | `Topology` | queues, exchanges, bindings; the node set of a tree |
| children.dfy | `Children` | `pushQueue`, `pushExchange`, `indexChildren`, `_getChildren` as functions, and their meaning |
| children_order.dfy | `ChildrenOrder` | the post-order of the exchange list |
| children_examples.dfy | `ChildrenExamples` | the children of the unit tests' large topology |
| children_indexer.dfy | `ChildrenIndexer` | the same operations as methods on a mutable `children` object |
| schema_queries.dfy | `SchemaQueries` | the queries of a built schema |
| topic_pattern.dfy | `TopicPattern` | `topicPatternTest`: the rewrite chain, the regex and its matcher |
| topic_pattern_laws.dfy | `TopicPatternLaws` | what each pattern shape matches |
| routing.dfy | `Routing` | `validateMessage` and its walk, as functions and as methods with the shared flag |
| routing_examples.dfy | `RoutingExamples` | `validateMessage` on the unit tests' large topology |
| schema_validation.dfy | `SchemaValidation` | `validate`, `_validateQueue`, `_validateExchange`, `SchemaValidationError` |
| prototype_lookup.dfy | `PrototypeLookup` | the name lookups as written, for names `Object.prototype` defines |

Parameters, in place of code outside the core:

- The JSON-schema validator (`jsonValidator`, built on ajv) is a function
  parameter, `SchemaValidation.JsonValidator`, taking the schema,
  the value and the parent path. It returns the error it throws, or none.
- The message-schema check of a queue is `Routing.MessageCheck`.
- `keypather.get` is `SchemaValidation.KeyLookup`.

## Model

| member | source | states |
|---|---|---|
| Children.PushQueueStep | lib/schema.js:222-237 | Pushing a queue into a valid index succeeds exactly when its `options \|\| {}` agrees with the queue already stored under its name. Otherwise it throws the assertion error "'<name>' queue is defined multiple times with mismatched options". On success the index stays valid, the queue list grows at its end only, and the entry stored first under the name is kept. |
| Children.PushExchangeStep | lib/schema.js:196-216 | The same for exchanges, where agreeing means equal `options \|\| {}` and equal bindings. Options are compared first: different options throw "'<name>' exchange is defined multiple times with mismatched options". Equal options with different bindings throw "... mismatched bindings". |
| Children.PushFreshExchange | lib/schema.js:211-215 | An exchange whose name is not yet indexed is appended and indexed in a valid index. |
| Children.IndexOfStep | lib/schema.js:170-190 | `indexChildren` of a single tree succeeds exactly when every two nodes of the tree of the same kind and name agree. |
| Children.IndexBindingsStep | lib/schema.js:172-184 | The `bindings.forEach` of `indexChildren` pushes exactly the nodes below bindings `i..`, with the same success condition. |
| Children.AddDestinationStep | lib/schema.js:173-183 | One binding's destination is pushed with all its descendant nodes: the queues of its sub-schema, then its exchanges, then itself. |
| Children.MergeIntoStep | lib/schema.js:162-165 | Pushing a sub-schema's `_queues`, then its `_exchanges` (then optionally one more exchange) is a step over exactly those nodes. |
| Children.SubIndexesSpec | lib/schema.js:160-165 | Computing each array element's own children succeeds exactly when every element is internally consistent. A failure is the mismatch error of a clash between two nodes of the elements. |
| Children.MergeAllStep | lib/schema.js:160-165 | Merging the children of the array elements in order is a step over all their nodes. |
| Children.ChildrenSucceedIffAgree | lib/schema.js:151-240 | `_getChildren` succeeds if and only if every two queues of the topology with the same name have equal `options \|\| {}`, and every two exchanges with the same name have equal `options \|\| {}` and bindings. Otherwise the error names a node that clashes with another node of the topology of the same kind and name. It is "mismatched options" when their options differ, and otherwise (exchanges only) "mismatched bindings". |
| Children.ChildrenIndexTree | lib/schema.js:151-240 | On success, no name appears twice in a list, and each map indexes exactly its list. Every stored node comes from the topology. Every node of the topology agrees with the node stored under its name. |
| Children.RootExchangeLast | lib/schema.js:185-186 | For an exchange topology, the root exchange ends the exchange list. |
| Children.QueueRootChildren | lib/schema.js:187-189 | A topology that is one queue has exactly that queue as its children. |
| ChildrenOrder.ChildrenPostOrder | lib/schema.js:170-190 | Every exchange that a listed exchange binds comes before it in the exchange list: the list is in post-order. |
| ChildrenOrder.PushExchangeOrder | lib/schema.js:196-216 | Pushing an exchange whose destination exchanges are all indexed keeps the list post-ordered. |
| ChildrenOrder.MergeIntoOrder | lib/schema.js:175-179 | Merging a post-ordered sub-schema, and then its own exchange, keeps the list post-ordered. |
| ChildrenExamples.LargeSchemaOrder | test/schema.unit.js:487-530 | For the tests' large topology, the children are the one queue and the exchanges `miss-exchange1, exchange3, exchange2, exchange1`, in that order. |
| ChildrenExamples.OneQueueExchange | lib/schema.js:170-190 | An exchange binding one queue has the children `[queue]` and `[exchange]`. |
| ChildrenExamples.SiblingCopyOptions | test/schema.unit.js:361-366 | In the array topology `[exchange0]`, exchange0 binds exchange1, which binds the queue, and then a copy of exchange1 with other options. Building the children throws "'exchange1' exchange is defined multiple times with mismatched options". |
| ChildrenExamples.SiblingCopyBindings | test/schema.unit.js:367-373 | Here the copy of exchange1 has the same options but binds exchange1 instead of the queue. Building the children throws "... mismatched bindings". |
| ChildrenExamples.TwinQueueOptions | test/schema.unit.js:374-380 | Two same-named queues with other options throw "'<name>' queue ... mismatched options". |
| ChildrenIndexer.Indexer.constructor | lib/schema.js:152-157 | A fresh `children` object is empty. |
| ChildrenIndexer.Indexer.PushQueue | lib/schema.js:222-237 | The in-place `pushQueue` computes `Children.PushQueue`. A throw leaves the object unchanged. |
| ChildrenIndexer.Indexer.PushExchange | lib/schema.js:196-216 | The in-place `pushExchange` computes `Children.PushExchange`. A throw leaves the object unchanged. |
| ChildrenIndexer.Indexer.PushQueues | lib/schema.js:177 | `_queues.forEach(pushQueue)`, with the loop proved equal to `Children.PushQueues`. |
| ChildrenIndexer.Indexer.PushExchanges | lib/schema.js:178 | `_exchanges.forEach(pushExchange)`, with the loop proved equal to `Children.PushExchanges`. |
| ChildrenIndexer.Indexer.PushSubSchema | lib/schema.js:175-179 | Pushing a sub-schema's queues, exchanges and itself is `Children.MergeInto`. |
| ChildrenIndexer.Indexer.IndexChildren | lib/schema.js:170-190 | The binding loop, with a fresh sub-object for each exchange destination, computes `Children.IndexInto`. |
| ChildrenIndexer.SubSchemas | lib/schema.js:67 | `value.map(SubSchema)` fills a fresh `children` object per array element, in order, and computes `Children.SubIndexes`. It stops at the first element that throws. |
| ChildrenIndexer.Indexer.PushSubSchemas | lib/schema.js:160-165 | The `forEach(schemas, ..)` loop pushes each element's queues, then its exchanges, into one object. It computes `Children.MergeAll` and stops at the first throw. |
| ChildrenIndexer.GetChildren | lib/schema.js:151-168 | `_getChildren` on a single tree or an array computes `Children.GetChildren`. Its meaning is proved in `ChildrenSucceedIffAgree`. |
| SchemaQueries.ListsCoverTopology | lib/schema.js:245-254 | `getExchanges` lists every exchange name of the topology exactly once, and only exchanges of the topology. `getQueues` does the same for queues. |
| SchemaQueries.EntryMeaning | lib/schema.js:151-240 | A name is indexed exactly when the topology has a node of that kind and name, and the stored node agrees with all of them. |
| SchemaQueries.ExchangeLookup | lib/schema.js:307-315 | `getExchangeByName` finds a node if and only if the topology has an exchange of that name. The node found has that name, belongs to the topology, and agrees with every exchange of that name. Otherwise it gives undefined. |
| SchemaQueries.QueueLookup | lib/schema.js:320-328 | `getQueueByName`, the same for queues. |
| SchemaQueries.ShortcutAgrees | lib/schema.js:307-328 | The root-name shortcut of the lookups gives the same node as the index alone. |
| SchemaQueries.QueueStoredFirst | lib/schema.js:320-328 | `getQueueByName` finds a queue exactly when the topology has one of that name. That queue is the entry stored first under the name, is the root when the root is that queue, and is listed by `getQueues`. |
| SchemaQueries.ExchangeStoredFirst | lib/schema.js:307-315 | The same for `getExchangeByName` and `getExchanges`. |
| SchemaQueries.ResolveFrom | lib/schema.js:265-276 | One result per binding, in order, each binding resolved with its source. |
| SchemaQueries.BindingsResolved | lib/schema.js:261-280 | Every entry of `getBindings` has as its source a listed exchange of the topology, and a destination that was found in the topology. |
| SchemaQueries.DestinationResolved | lib/schema.js:266-270 | A binding's destination resolves to a node that agrees with it. |
| SchemaQueries.DestinationInTopology | lib/schema.js:172-173 | Every binding destination of a node of the topology is itself in the topology. |
| SchemaQueries.BindingsCount | lib/schema.js:264-279 | `getBindings` yields exactly as many entries as the listed exchanges have bindings. |
| SchemaQueries.BindingsInOrder | lib/schema.js:261-280 | Binding `j` of exchange `i` sits at position `TotalBindings(xs[..i]) + j`: exchange by exchange, each in its own order. The entry keeps `args` and `routingPattern`, and its `source` is that exchange. |
| SchemaQueries.GetBindingsInOrder | lib/schema.js:261-280 | For `getBindings` this means one entry per binding of the listed exchanges, in the order of `getExchanges`. Each entry keeps its binding's `args` and `routingPattern`, has that exchange as `source`, and has the destination looked up by name. |
| SchemaQueries.DirectBindingsOfRoot | lib/schema.js:287-302 | For an exchange topology, `getDirectBindings` resolves the root's own bindings in order. Each entry keeps `args` and `routingPattern` and has the root as source. Its destination is `getExchangeByName` or `getQueueByName` of the binding destination's name. That destination is found, is a topology node of the same kind and name, and agrees with the binding's. For a queue or an array topology the list is empty. |
| TopicPattern.LiteralMatches | lib/topic-pattern-test.js:13-25 | A pattern compiled to literal characters matches exactly the equal key. |
| TopicPattern.MatchesConcat | lib/topic-pattern-test.js:23-25 | The backtracking matcher matches a concatenation exactly when the key splits into a part for each side. |
| TopicPattern.CompileWildcardFree | lib/topic-pattern-test.js:4-21 | A pattern without `#` or `*` compiles to its own characters, with each `.` a `[.]`. |
| TopicPatternLaws.NoWildcardMeaning | lib/topic-pattern-test.js:3-26 | A pattern of plain text (letters, digits, `_`, `-` and `.`) matches exactly the key equal to it. |
| TopicPatternLaws.HashLastMeaning | lib/topic-pattern-test.js:3-26 | `u#` matches exactly the keys that start with `u` and continue with letters and dots. Here `u` and `v` are plain text. |
| TopicPatternLaws.HashFirstMeaning | lib/topic-pattern-test.js:3-26 | `#v` matches exactly the keys that end with `v` after letters and dots. Here `u` and `v` are plain text. |
| TopicPatternLaws.DotHashDotFirstMeaning | lib/topic-pattern-test.js:3-26 | `.#.v` matches exactly the keys that end with `v` after a dot and then letters and dots. Here `u` and `v` are plain text. |
| TopicPatternLaws.DotHashDotLastMeaning | lib/topic-pattern-test.js:3-26 | `u.#.` matches exactly the keys that start with `u` and continue with letters and dots ending in a dot. Here `u` and `v` are plain text. |
| TopicPatternLaws.DotHashDotBetweenMeaning | lib/topic-pattern-test.js:3-26 | `u.#.v` matches exactly the keys `u` + letters-and-dots + `v`. This includes `uv`: the dots around `#` are absorbed. Here `u` and `v` are plain text. |
| TopicPatternLaws.StarFirstMeaning | lib/topic-pattern-test.js:3-26 | `*v` matches exactly the keys that end with `v` after letters, optionally after one leading dot. Here `u` and `v` are plain text. |
| TopicPatternLaws.StarLastMeaning | lib/topic-pattern-test.js:3-26 | `u*` matches exactly the keys that start with `u` and continue with letters, optionally followed by one dot. Here `u` and `v` are plain text. |
| TopicPatternLaws.StarBetweenMeaning | lib/topic-pattern-test.js:3-26 | `u*v` matches exactly the keys `u` + letters + `v`. Here `u` and `v` are plain text. |
| Routing.BindingMatch | lib/schema.js:383-385 | A binding matches if and only if it is direct with a pattern equal to the key, topic with a pattern that matches the key, or fanout. A topic binding without a pattern throws a `TypeError`. Nothing else throws. |
| Routing.BindingsWalkEvents | lib/schema.js:381-396 | The walk over bindings `i..` stops at the first failure among the events below them, and clears the flag exactly when a queue is reached first. |
| Routing.DestinationWalkEvents | lib/schema.js:389-395 | The same for one matched destination, walked as an exchange when `dest.exchange` is truthy and as a queue otherwise. |
| Routing.ExchangeWalkMeaning | lib/schema.js:371-404 | Sent to an exchange, the message meets the queues it reaches, depth first in binding order. The walk throws the first failure with its queue's path. With no failure it throws "message did not reach any queues" exactly when no queue was reached. |
| Routing.Verdict | lib/schema.js:335-364 | A successful `validateMessage` returns the message itself. |
| Routing.TwoArgumentForm | lib/schema.js:339-345 | The two-argument call is the call with a missing or empty exchange name. |
| Routing.DirectToQueue | lib/schema.js:347-353 | With no exchange name, the call throws "queue with name ... does not exist" exactly when the topology has no such queue. Otherwise it gives the check of the queue stored first under the name, located at `<queue>.messageSchema`. That queue is the root when the root is that queue, and it is listed by `getQueues`. |
| Routing.ToExchange | lib/schema.js:354-361 | With an exchange name, the call throws "exchange with name ... does not exist" exactly when the topology has no such exchange. Otherwise it gives the outcome of `ExchangeWalkMeaning` from the exchange stored first under the name. That exchange is the root when the root is that exchange, and it is listed by `getExchanges`. |
| Routing.RoutingState.constructor | lib/schema.js:372-374 | The shared state starts with `noDestinationQueuesFound` set. |
| Routing.QueueValidateMessage | lib/schema.js:410-428 | The in-place queue step clears the shared flag and rethrows the check's error located at its path. Its result and the flag it leaves are `QueueWalk`. |
| Routing.ExchangeValidateMessage | lib/schema.js:371-404 | The loop over the bindings, recursing through the shared state, computes `ExchangeWalk`. This is the error thrown and the flag it leaves. |
| Routing.BindingsValidateMessage | lib/schema.js:381-396 | The in-place `bindings.forEach` loop over all bindings computes `BindingsWalk` from binding 0. This covers the error thrown and the flag it leaves. |
| Routing.BindingValidateMessage | lib/schema.js:382-395 | One binding of the loop. A throw is the walk's outcome from binding `i`. Otherwise the walk from `i + 1` on the new flag gives the same outcome as the walk from `i` on the old flag. |
| Routing.DestinationValidateMessage | lib/schema.js:389-395 | The `dest.exchange` dispatch computes `DestinationWalk`. |
| Routing.ValidateMessage | lib/schema.js:335-364 | The method computes `Verdict`. |
| RoutingExamples.FanoutToQueue | lib/schema.js:385 | A fanout exchange that binds only a queue delivers there, whatever the key. |
| RoutingExamples.TopicHop | test/schema.unit.js:487-530 | In the topic exchange2, only the `routing.key` binding matches `routing.key`. |
| RoutingExamples.RoutingKeyReachesQueueOnce | test/schema.unit.js:487-530 | Routed with `routing.key`, the message reaches the queue exactly once, through exchange2 and exchange3. |
| RoutingExamples.OtherKeyReachesNothing | test/schema.unit.js:532-561 | A key that no direct binding of exchange1 carries reaches nothing. |
| RoutingExamples.LargeSchemaMessages | test/schema.unit.js:532-561 | The tests' outcomes: "did not reach any queues" for an unrouted key. For `routing.key`, either the queue's error located at `exchange1.exchange2.exchange3.<queue>.messageSchema` or the message itself. |
| SchemaValidation.Validate | lib/schema.js:99-112 | An object is checked against the topology schema with no path. Anything that is neither an object nor an array throws the `TypeError` "'value' must be an object or array". |
| SchemaValidation.ValidateArray | lib/schema.js:100-106 | An array passes if and only if every element passes the topology schema under path `[i]`. |
| SchemaValidation.ValidateArrayFirstFailure | lib/schema.js:104-106 | An array fails with the error of its first failing element. |
| SchemaValidation.ItemPathsDistinct | lib/schema.js:105 | Different elements are reported under different paths `[i]`. |
| SchemaValidation.ExchangeSchemaFor | lib/schema.js:130-136 | An exchange schema exists if and only if the type is `direct`, `topic` or `fanout`. |
| SchemaValidation.ExchangeDispatch | lib/schema.js:127-146 | Each of the three types is checked against its own schema. Any other type throws a `SchemaValidationError` saying `'<path>.type' must be direct, topic, or fanout`. |
| SchemaValidation.FirstErrorOnly | lib/schema-validation-error.js:32 | The message depends only on the first validator error. |
| SchemaValidation.PlainMessage | lib/schema-validation-error.js:32-58 | For any keyword but `oneOf` and any `dataPath`, the message is `'<parent>.<path>' <message>`, or `'<path>'` alone without a parent. The path is `dataPath` minus its first character, or `json` when that is empty. |
| SchemaValidation.OneOfRedispatch | lib/schema-validation-error.js:32-56 | For `oneOf` and any `dataPath`, the value found at the path is re-validated as a queue if it has `queue`, else as an exchange if it has `exchange`, at the joined path. Otherwise the message is `'<path>' must be a queue or exchange`. A value that is `undefined` or `null` throws the `TypeError` of reading `queue`. |
| SchemaValidation.RootPlainMessage | lib/schema-validation-error.js:32-58 | A failure at the validated value itself is quoted as `'json'`, or as `'<parent>.json'` under a parent path. |
| SchemaValidation.RootRedispatch | lib/schema-validation-error.js:33-53 | A queue-like or exchange-like value failing `oneOf` at the top is re-validated with the empty path. Inside array element `i` it is re-validated at `[i].`. |
| SchemaValidation.NestedMessage | test/schema.unit.js:197-203 | A nested failure is reported as `'<path>' <message>`. |
| SchemaValidation.ArrayElementMessage | test/schema.unit.js:230-236 | A failure in array element `i` is reported as `'[i].<path>' <message>`. |
| SchemaValidation.UntypedExchangeMessage | test/schema.unit.js:214-220 | An exchange-like value without a type is reported as `'<path>.type' must be direct, topic, or fanout`. |
| SchemaValidation.EmptyObjectMessage | test/schema.unit.js:143-148 | An empty object is reported as `'json' must be a queue or exchange`. |
| SchemaValidation.NewSchemaValidationError | lib/schema-validation-error.js:12-21 | A string argument becomes the message verbatim. A validate object gives the message of `getMessage`. In both cases the error is a `SchemaValidationError`. |
| JsValues.NatToStringValue | lib/schema.js:105 | The decimal text of an array index reads back as that index. |
| PrototypeLookup.InheritedExchangeRejected | lib/schema.js:196-216 | As written, the first exchange with an inherited name is rejected as a duplicate. The map-based push indexes it. |
| PrototypeLookup.InheritedQueueDropped | lib/schema.js:222-237 | As written, a queue with an inherited name and no options is silently dropped. The map-based push adds it. |
| PrototypeLookup.InheritedQueueLookupThrows | lib/schema.js:320-328 | As written, looking up an absent inherited queue name throws instead of giving undefined. |
| PrototypeLookup.InheritedExchangeLookupThrows | lib/schema.js:307-315 | As written, looking up an absent inherited exchange name throws instead of giving undefined. |
| PrototypeLookup.AsWrittenElsewhere | lib/schema.js:196-328 | For every other name, the pushes and lookups as written are the map-based ones. |

## Left out

- The JSON-schema validator (`lib/json-validator.js`, ajv) and the schema documents under `lib/json-schemas/` and `lib/generate-exchange-json-schema.js` are parameters. The model does not restate what those schemas accept. Examples:
  - the name pattern;
  - the `routingKey` that the direct-binding schema requires;
  - that the `items: [binding]` form only constrains the first binding;
  - ajv's circular-reference check.
- Raw JSON is not decoded into `Topology.Node`. A node carries its name, type, options, bindings and message schema. Extra properties, `clone`, `deepFreeze`, `staticProperty`, the copy constructor `createCopy`, `toJSON` and `SubSchema` are not modelled as objects. A sub-schema is its node and its own children.
- Children.Agree: `pushExchange` compares bindings with `deepStrictEqual`, which reads every property of every binding and destination, including properties the model does not carry. Two same-named exchanges whose bindings differ only in such extra properties throw in the source, but agree in the model.
- Topology.OptionsOrEmpty follows JavaScript truthiness (`options || {}`): a missing, `null`, `false`, `0` or `''` options value counts as `{}`.
- `new Schema(value)` re-validates every sub-schema, because `Schema.apply` calls the static `Schema.validate` (lib/schema.js:55, 443-447). That check is not redundant: the tuple form `items: [binding]` constrains only the first binding, so a later binding's destination is first validated there. `Build` assumes every nested destination already validates. Where one does not, `new Schema` throws from that re-validation while `Build` succeeds.
- `getExchanges`, `getQueues` and the lookups wrap each node in a fresh `Schema` copy. The model returns the node that copy is made from.
- index.js and the exported helpers there are not part of this model.
- `Error` objects are a kind and a message. The texts of engine `TypeError`s use the wording of current V8: "Cannot read properties of undefined (reading 'queue')", with `null` in place of `undefined` when the value read from is `null`. Stack traces and `Error.captureStackTrace` are left out, as is the `validate` property that `SchemaValidationError` keeps.
- `keypather.get` is the parameter `SchemaValidation.KeyLookup`. When it returns nothing or `null`, `getMessage` throws a `TypeError`, which the model records.
- SchemaValidation.GetMessage: when the `oneOf` re-validation passes, the source returns `undefined` as the message. The model gives `Message.Undefined`, as the source does, and proves nothing stronger.
- Routing.BindingMatch: a direct binding compares `routingPattern` with the key, and its `routingKey` property is never read. The model follows the code.
- Routing.Verdict: an exchange named `''` inside a topology is walked as a queue (`dest.exchange` is falsy), at path `<parent>.undefined.messageSchema`, with no message schema. The model follows the code. `ExchangeWalkMeaning` and its relatives are stated for walks where no exchange is named `''`.
- `__proto__` as a name is left out of `PrototypeLookup`. `byName['__proto__']` already finds `Object.prototype` itself, an object rather than a function, so the pushes would behave as for the other inherited names. The lookups would then call `new Schema(Object.prototype)`, whose error depends on the validator, which is a parameter here.
- SchemaValidation.RootRedispatch: inside array element `i`, a queue-like or exchange-like value is re-validated at `[i].`, because `currPath` joins the parent path and the empty path with `.` (lib/schema-validation-error.js:35-37). The model follows the code. The unit test at test/schema.unit.js:164-172 stubs the validators and expects `'[1]'`.
- TopicPattern.TopicPatternTest: the source splices the pattern into `new RegExp` without escaping it. Pattern characters other than letters, digits, `_`, `-`, `.`, `*` and `#` are regex syntax there, e.g. `+`, `(`, `[`, `?` and `{placeholderN}` text, and may match differently or throw a `SyntaxError`. The model reads every such character literally, so the `TopicPatternLaws` members are stated only for plain-text literals (`TopicPattern.PlainText`).
- JsValues.Json: numbers are integers; fractional numbers in `options`, `args` or messages are not modelled.
- Routing.MessageCall: the routing key is a string. The source also accepts other values. With an `undefined` key, a direct binding without `routingPattern` matches, because `undefined === undefined` (lib/schema.js:383).
- Routing.Verdict, Routing.DirectToQueue, Routing.ToExchange and the `SchemaQueries` lookups use the map-based children index. For a name inherited from `Object.prototype` (`PrototypeLookup.InheritedNames`), they describe the intended behaviour rather than the source's. For example, `validateMessage('', 'constructor', m)` on a schema without such a queue throws the `TypeError` of `new Schema(fn)` in the source, where the model gives "queue with name ... does not exist". `PrototypeLookup` models the source's behaviour for those names.
- The extra second argument that one unit test passes to `Schema.validate` is ignored by the source and not modelled.

## Findings

| source | as written | input that shows it | evidently intended | confidence | as-written member | corrected member |
|---|---|---|---|---|---|---|
| lib/schema.js:196-237 | `pushExchange` and `pushQueue` read `children.exchangesByName[name]` from a plain `{}`. For a name defined on `Object.prototype`, such as `constructor`, this finds the inherited function. | a topology whose only exchange is `{exchange: 'constructor', type: 'fanout', bindings: [{destination: {queue: 'q', messageSchema: {}}}]}`; or a queue named `toString` with no options | a name not yet pushed is appended and indexed. The exchange should be accepted rather than reported as "defined multiple times with mismatched bindings", and the queue listed rather than dropped | not executed | PrototypeLookup.PushExchangeAsWritten (shown by PrototypeLookup.InheritedExchangeRejected); PrototypeLookup.PushQueueAsWritten (shown by PrototypeLookup.InheritedQueueDropped) | Children.PushExchange (proved by Children.PushExchangeStep); Children.PushQueue (proved by Children.PushQueueStep) |
| lib/schema.js:307-328 | `getExchangeByName` and `getQueueByName` read `this._exchangesByName[name]` from a plain `{}`. An absent inherited name finds a function, and `new Schema(fn)` throws. | `getQueueByName('constructor')` on a schema with no queue of that name | undefined for a name the topology lacks | not executed | PrototypeLookup.GetQueueByNameAsWritten (shown by PrototypeLookup.InheritedQueueLookupThrows); PrototypeLookup.GetExchangeByNameAsWritten (shown by PrototypeLookup.InheritedExchangeLookupThrows) | SchemaQueries.GetQueueByName (proved by SchemaQueries.QueueLookup); SchemaQueries.GetExchangeByName (proved by SchemaQueries.ExchangeLookup) |
