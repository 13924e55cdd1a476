/**
 * Structural validation of topology JSON (lib/schema.js:99-146) and the
 * message of a `SchemaValidationError` (lib/schema-validation-error.js).
 * The two source files call each other, so they share one module here.
 *
 * The JSON-schema validator behind lib/json-validator.js is a parameter: it
 * takes one of the five schemas of lib/json-schemas, a value and a parent
 * path, and says which error (if any) it throws.
 */
module SchemaValidation {
  import opened JsValues

  /** The JSON schemas of lib/json-schemas. */
  datatype SchemaKind =
    | TopologySchema
    | QueueSchema
    | DirectExchangeSchema
    | TopicExchangeSchema
    | FanoutExchangeSchema

  /** `jsonValidator(schema, value, parentPath)`: the error it throws, or `None`. */
  type JsonValidator = (SchemaKind, Json, Option<string>) -> Option<Error>

  /** `keypather.get(data, path)`; `None` is `undefined`. */
  type KeyLookup = (Json, string) -> Option<Json>

  /** One entry of an ajv `errors` array. */
  datatype ValidatorError = ValidatorError(dataPath: string, keyword: string, message: string)

  /** An errored ajv validate function: the data it checked and its `errors`. */
  datatype Report = Report(data: Json, errors: seq<ValidatorError>)

  /** What the `TypeError` of reading property `key` of `null` (when `ofNull`) or of `undefined` says. */
  function MissingProperty(ofNull: bool, key: string): string {
    "Cannot read properties of " + (if ofNull then "null" else "undefined") + " (reading '" + key + "')"
  }

  const NotObjectOrArray := "'value' must be an object or array"

  // ---------------------------------------------------------------------------
  // Schema.validate, Schema._validateQueue, Schema._validateExchange
  // ---------------------------------------------------------------------------

  /** The parent path of the `i`-th element of an array topology: `'[' + i + ']'`. */
  function ItemPath(i: nat): string {
    "[" + NatToString(i) + "]"
  }

  /** `Schema.validate(value)`: an array element by element, an object as a topology. */
  function Validate(jv: JsonValidator, value: Json): (r: Option<Error>)
    ensures value.JObj? ==> r == jv(TopologySchema, value, None)
    ensures !value.JObj? && !value.JArr? ==> r == Some(Error(TypeError, Text(NotObjectOrArray)))
  {
    match value
    case JArr(items) => ValidateItems(jv, items, 0)
    case JObj(_) => jv(TopologySchema, value, None)
    case _ => Some(Error(TypeError, Text(NotObjectOrArray)))
  }

  /** `value.forEach(..)` from element `i` on: the first element that throws stops the walk. */
  function ValidateItems(jv: JsonValidator, items: seq<Json>, i: nat): Option<Error>
    requires i <= |items|
    decreases |items| - i
  {
    if i == |items| then None
    else
      match jv(TopologySchema, items[i], Some(ItemPath(i)))
      case Some(e) => Some(e)
      case None => ValidateItems(jv, items, i + 1)
  }

  /** `Schema._validateQueue(value, parentPath)`. */
  function ValidateQueue(jv: JsonValidator, value: Json, parentPath: Option<string>): Option<Error> {
    jv(QueueSchema, value, parentPath)
  }

  /** The schema `_validateExchange` picks for a `type` property, if it names one. */
  function ExchangeSchemaFor(exchangeType: Option<Json>): (r: Option<SchemaKind>)
    ensures r.Some? <==> exchangeType in {Some(JStr("direct")), Some(JStr("topic")), Some(JStr("fanout"))}
  {
    if exchangeType == Some(JStr("direct")) then Some(DirectExchangeSchema)
    else if exchangeType == Some(JStr("topic")) then Some(TopicExchangeSchema)
    else if exchangeType == Some(JStr("fanout")) then Some(FanoutExchangeSchema)
    else None
  }

  /** The message `_validateExchange` throws for a missing or unknown `type`. */
  function BadExchangeType(parentPath: Option<string>): string {
    "'" + (if Truthy(parentPath) then parentPath.value + ".type" else "type") + NotAnExchangeType
  }

  const NotAnExchangeType := "' must be direct, topic, or fanout"

  /** `Schema._validateExchange(json, parentPath)`: dispatch on `json.type`. */
  function ValidateExchange(jv: JsonValidator, json: Json, parentPath: Option<string>): Option<Error> {
    if json.JNull? then
      Some(Error(TypeError, Text(MissingProperty(true, "type"))))
    else
      match ExchangeSchemaFor(Prop(json, "type"))
      case Some(kind) => jv(kind, json, parentPath)
      case None => Some(Error(SchemaValidationError, Text(BadExchangeType(parentPath))))
  }

  // ---------------------------------------------------------------------------
  // SchemaValidationError
  // ---------------------------------------------------------------------------

  /** `dataPath.slice(1)`: the validator's path without its leading `.`. */
  function ChopFirst(path: string): (r: string)
    ensures |path| > 0 ==> path == path[..1] + r
    ensures |path| == 0 ==> r == ""
  {
    if |path| == 0 then "" else path[1..]
  }

  /** `dataPath || 'json'` */
  function ShownPath(dataPath: string): string {
    if dataPath == "" then "json" else dataPath
  }

  /** `undefined` when the re-validation passes, or what it throws. */
  function Revalidated(err: Option<Error>): Result<Message> {
    if err.Some? then Err(err.value) else Ok(Undefined)
  }

  /**
   * `SchemaValidationError.getMessage(validate, parentPath)`: the message
   * for the first validator error, or the error thrown while working it out.
   */
  function GetMessage(jv: JsonValidator, lookup: KeyLookup, validate: Report, parentPath: Option<string>): Result<Message> {
    if validate.errors == [] then
      Err(Error(TypeError, Text(MissingProperty(false, "dataPath"))))
    else
      var first := validate.errors[0];
      var dataPath := ChopFirst(first.dataPath);
      var currPath := JoinPath(parentPath, dataPath);
      var quoted := "'" + JoinPath(parentPath, ShownPath(dataPath)) + "'";
      if first.keyword == "oneOf" then
        match lookup(validate.data, dataPath)
        case None => Err(Error(TypeError, Text(MissingProperty(false, "queue"))))
        case Some(json) =>
          if json.JNull? then Err(Error(TypeError, Text(MissingProperty(true, "queue"))))
          else if Exists(Prop(json, "queue")) then Revalidated(ValidateQueue(jv, json, Some(currPath)))
          else if Exists(Prop(json, "exchange")) then Revalidated(ValidateExchange(jv, json, Some(currPath)))
          else Ok(Text(quoted + NotQueueOrExchange))
      else
        Ok(Text(quoted + " " + first.message))
  }

  const NotQueueOrExchange := " must be a queue or exchange"

  /** What `new SchemaValidationError(..)` is given: a message, or an errored validate function. */
  datatype ErrorArgument = MessageArgument(text: string) | ValidateArgument(validate: Report)

  /**
   * `new SchemaValidationError(validate, parentPath)`: the error object, or
   * the error its message assembly throws.
   */
  function NewSchemaValidationError(jv: JsonValidator, lookup: KeyLookup, arg: ErrorArgument, parentPath: Option<string>): (r: Result<Error>)
    ensures r.Ok? ==> r.value.kind == SchemaValidationError
    ensures arg.MessageArgument? ==> r == Ok(Error(SchemaValidationError, Text(arg.text)))
    ensures arg.ValidateArgument? ==>
      (r.Ok? <==> GetMessage(jv, lookup, arg.validate, parentPath).Ok?) &&
      (r.Ok? ==> r.value.message == GetMessage(jv, lookup, arg.validate, parentPath).value) &&
      (r.Err? ==> r.error == GetMessage(jv, lookup, arg.validate, parentPath).error)
  {
    match arg
    case MessageArgument(text) => Ok(Error(SchemaValidationError, Text(text)))
    case ValidateArgument(validate) =>
      match GetMessage(jv, lookup, validate, parentPath)
      case Ok(message) => Ok(Error(SchemaValidationError, message))
      case Err(e) => Err(e)
  }

  // ---------------------------------------------------------------------------
  // Properties of validate
  // ---------------------------------------------------------------------------

  /** An array passes exactly when every element passes as a topology at its `[i]` path. */
  lemma {:induction false} ItemsPass(jv: JsonValidator, items: seq<Json>, i: nat)
    requires i <= |items|
    ensures ValidateItems(jv, items, i) == None <==>
      forall k :: i <= k < |items| ==> jv(TopologySchema, items[k], Some(ItemPath(k))) == None
    decreases |items| - i
  {
    if i < |items| {
      ItemsPass(jv, items, i + 1);
    }
  }

  /** The error of an array is the error of its first failing element. */
  lemma {:induction false} ItemsFirstFailure(jv: JsonValidator, items: seq<Json>, i: nat, k: nat)
    requires i <= k < |items|
    requires forall j :: i <= j < k ==> jv(TopologySchema, items[j], Some(ItemPath(j))) == None
    requires jv(TopologySchema, items[k], Some(ItemPath(k))).Some?
    ensures ValidateItems(jv, items, i) == jv(TopologySchema, items[k], Some(ItemPath(k)))
    decreases k - i
  {
    if i < k {
      ItemsFirstFailure(jv, items, i + 1, k);
    }
  }

  /** `validate` of an array: it passes iff every element does, each under its own `[i]`. */
  lemma ValidateArray(jv: JsonValidator, items: seq<Json>)
    ensures Validate(jv, JArr(items)) == None <==>
      forall k :: 0 <= k < |items| ==> jv(TopologySchema, items[k], Some(ItemPath(k))) == None
  {
    ItemsPass(jv, items, 0);
  }

  /** `validate` of an array throws what the first failing element throws. */
  lemma ValidateArrayFirstFailure(jv: JsonValidator, items: seq<Json>, k: nat)
    requires k < |items|
    requires forall j :: 0 <= j < k ==> jv(TopologySchema, items[j], Some(ItemPath(j))) == None
    requires jv(TopologySchema, items[k], Some(ItemPath(k))).Some?
    ensures Validate(jv, JArr(items)) == jv(TopologySchema, items[k], Some(ItemPath(k)))
  {
    ItemsFirstFailure(jv, items, 0, k);
  }

  /** Distinct elements are reported under distinct paths. */
  lemma ItemPathsDistinct(i: nat, j: nat)
    requires i != j
    ensures ItemPath(i) != ItemPath(j)
  {
    var a, b := ItemPath(i), ItemPath(j);
    if a == b {
      assert NatToString(i) == a[1..|a| - 1];
      assert NatToString(j) == b[1..|b| - 1];
      NatToStringValue(i);
      NatToStringValue(j);
    }
  }

  // ---------------------------------------------------------------------------
  // Properties of _validateExchange
  // ---------------------------------------------------------------------------

  /**
   * An exchange is checked against exactly the schema its `type` names; any
   * other `type`, or none, is a `SchemaValidationError` about `<parent>.type`.
   */
  lemma ExchangeDispatch(jv: JsonValidator, json: Json, parentPath: Option<string>)
    requires json.JObj?
    ensures Prop(json, "type") == Some(JStr("direct")) ==>
      ValidateExchange(jv, json, parentPath) == jv(DirectExchangeSchema, json, parentPath)
    ensures Prop(json, "type") == Some(JStr("topic")) ==>
      ValidateExchange(jv, json, parentPath) == jv(TopicExchangeSchema, json, parentPath)
    ensures Prop(json, "type") == Some(JStr("fanout")) ==>
      ValidateExchange(jv, json, parentPath) == jv(FanoutExchangeSchema, json, parentPath)
    ensures ValidateExchange(jv, json, parentPath) == None ==> ExchangeSchemaFor(Prop(json, "type")).Some?
    ensures ExchangeSchemaFor(Prop(json, "type")).None? ==>
      ValidateExchange(jv, json, parentPath) == Some(Error(SchemaValidationError, Text(BadExchangeType(parentPath))))
  {
  }

  // ---------------------------------------------------------------------------
  // Properties of getMessage
  // ---------------------------------------------------------------------------

  /** Only the first validator error shapes the message. */
  lemma {:induction false} FirstErrorOnly(jv: JsonValidator, lookup: KeyLookup, validate: Report, parentPath: Option<string>)
    requires validate.errors != []
    ensures GetMessage(jv, lookup, validate, parentPath)
         == GetMessage(jv, lookup, Report(validate.data, validate.errors[..1]), parentPath)
  {
    assert validate.errors[..1][0] == validate.errors[0];
  }

  /** The path as an error message quotes it: the parent path, a `.`, and the data path or `json`. */
  function QuotedPath(parentPath: Option<string>, path: string): string {
    "'" + JoinPath(parentPath, ShownPath(path)) + "'"
  }

  /**
   * For any keyword but `oneOf`, the message is the quoted path (the
   * validator's path without its first character, or `json` when that is
   * empty) followed by the validator's own message.
   */
  lemma PlainMessage(jv: JsonValidator, lookup: KeyLookup, validate: Report, parentPath: Option<string>)
    requires validate.errors != [] && validate.errors[0].keyword != "oneOf"
    ensures var path := ChopFirst(validate.errors[0].dataPath);
            GetMessage(jv, lookup, validate, parentPath) ==
              Ok(Text(QuotedPath(parentPath, path) + " " + validate.errors[0].message))
  {
  }

  /**
   * A `oneOf` failure is re-validated at the combined path: as a queue when
   * the offending value has a `queue`, else as an exchange when it has an
   * `exchange`; the re-validation's error replaces the generic message.
   * Only a value with neither gets "must be a queue or exchange", and a value
   * that is `undefined` or `null` makes `json.queue` throw.
   */
  lemma OneOfRedispatch(jv: JsonValidator, lookup: KeyLookup, validate: Report, parentPath: Option<string>)
    requires validate.errors != [] && validate.errors[0].keyword == "oneOf"
    ensures var path := ChopFirst(validate.errors[0].dataPath);
            var found, r := lookup(validate.data, path), GetMessage(jv, lookup, validate, parentPath);
            && (found.None? ==> r == Err(Error(TypeError, Text(MissingProperty(false, "queue")))))
            && (found == Some(JNull) ==> r == Err(Error(TypeError, Text(MissingProperty(true, "queue")))))
            && (Exists(found) && Exists(Prop(found.value, "queue")) ==>
                  r == Revalidated(jv(QueueSchema, found.value, Some(JoinPath(parentPath, path)))))
            && (Exists(found) && !Exists(Prop(found.value, "queue")) && Exists(Prop(found.value, "exchange")) ==>
                  r == Revalidated(ValidateExchange(jv, found.value, Some(JoinPath(parentPath, path)))))
            && (Exists(found) && !Exists(Prop(found.value, "queue")) && !Exists(Prop(found.value, "exchange")) ==>
                  r == Ok(Text(QuotedPath(parentPath, path) + NotQueueOrExchange)))
  {
  }

  /**
   * A failure at the validated value itself has the empty path: it is
   * quoted as `json`, after the parent path when there is one.
   */
  lemma RootPlainMessage(jv: JsonValidator, lookup: KeyLookup, data: Json, parentPath: Option<string>, keyword: string, message: string)
    requires keyword != "oneOf"
    ensures var r := GetMessage(jv, lookup, Report(data, [ValidatorError("", keyword, message)]), parentPath);
            && (!Truthy(parentPath) ==> r == Ok(Text("'json' " + message)))
            && (Truthy(parentPath) ==> r == Ok(Text("'" + parentPath.value + ".json' " + message)))
  {
    PlainMessage(jv, lookup, Report(data, [ValidatorError("", keyword, message)]), parentPath);
    assert ShownPath(ChopFirst("")) == "json";
    if Truthy(parentPath) {
      var p := parentPath.value;
      assert QuotedPath(parentPath, "") == "'" + (p + "." + "json") + "'";
      assert ("'" + (p + "." + "json") + "'") + " " + message == "'" + p + ".json' " + message;
    } else {
      assert QuotedPath(parentPath, "") == "'" + "json" + "'";
      assert ("'" + "json" + "'") + " " + message == "'json' " + message;
    }
  }

  /**
   * A queue-like or exchange-like value failing `oneOf` at the top of a
   * topology (test/schema.unit.js:150-162) is re-validated with the empty
   * path; inside element `i` of an array topology (test/schema.unit.js:164-172)
   * it is re-validated at `[i].`, the element's path joined with the empty one.
   */
  lemma RootRedispatch(jv: JsonValidator, lookup: KeyLookup, data: Json, parentPath: Option<string>, message: string, json: Json)
    requires lookup(data, "") == Some(json) && Exists(Some(json))
    requires Exists(Prop(json, "queue")) || Exists(Prop(json, "exchange"))
    ensures var r := GetMessage(jv, lookup, Report(data, [ValidatorError("", "oneOf", message)]), parentPath);
            var at := if Truthy(parentPath) then parentPath.value + "." else "";
            && (Exists(Prop(json, "queue")) ==> r == Revalidated(jv(QueueSchema, json, Some(at))))
            && (!Exists(Prop(json, "queue")) ==> r == Revalidated(ValidateExchange(jv, json, Some(at))))
  {
    var validate := Report(data, [ValidatorError("", "oneOf", message)]);
    OneOfRedispatch(jv, lookup, validate, parentPath);
    assert ChopFirst("") == "";
    if Truthy(parentPath) {
      assert JoinPath(parentPath, "") == parentPath.value + "." + "";
      assert parentPath.value + "." + "" == parentPath.value + ".";
    }
  }

  // ---------------------------------------------------------------------------
  // The messages test/schema.unit.js expects
  // ---------------------------------------------------------------------------

  /**
   * A failure below the top with the validator's own message, as for the
   * `null` binding of test/schema.unit.js:197-203 (path
   * `bindings[0].destination.bindings[0]`, message `should be object`).
   */
  lemma NestedMessage(jv: JsonValidator, lookup: KeyLookup, data: Json, path: string, keyword: string, message: string)
    requires path != "" && keyword != "oneOf"
    ensures GetMessage(jv, lookup, Report(data, [ValidatorError("." + path, keyword, message)]), None)
         == Ok(Text("'" + path + "'" + " " + message))
  {
    PlainMessage(jv, lookup, Report(data, [ValidatorError("." + path, keyword, message)]), None);
    assert ChopFirst("." + path) == path;
  }

  /**
   * The same inside element `i` of an array topology, as in
   * test/schema.unit.js:230-236: the path is prefixed by `[i].`.
   */
  lemma ArrayElementMessage(jv: JsonValidator, lookup: KeyLookup, data: Json, i: nat, path: string, keyword: string, message: string)
    requires path != "" && keyword != "oneOf"
    ensures GetMessage(jv, lookup, Report(data, [ValidatorError("." + path, keyword, message)]), Some(ItemPath(i)))
         == Ok(Text("'" + ItemPath(i) + "." + path + "'" + " " + message))
  {
    PlainMessage(jv, lookup, Report(data, [ValidatorError("." + path, keyword, message)]), Some(ItemPath(i)));
    assert ChopFirst("." + path) == path;
    AppendAssociative("'", ItemPath(i) + ".", path);
    AppendAssociative("'", ItemPath(i), ".");
  }

  /**
   * A destination that looks like an exchange but has no `type`, as in
   * test/schema.unit.js:214-220: the `oneOf` failure is replaced by the
   * exchange validator's message about `<path>.type`.
   */
  lemma UntypedExchangeMessage(jv: JsonValidator, lookup: KeyLookup, data: Json, path: string, message: string, json: Json)
    requires path != ""
    requires lookup(data, path) == Some(json)
    requires json.JObj? && Exists(Prop(json, "exchange")) && !Exists(Prop(json, "queue")) && Prop(json, "type").None?
    ensures GetMessage(jv, lookup, Report(data, [ValidatorError("." + path, "oneOf", message)]), None)
         == Err(Error(SchemaValidationError, Text("'" + path + ".type" + NotAnExchangeType)))
  {
    var validate := Report(data, [ValidatorError("." + path, "oneOf", message)]);
    OneOfRedispatch(jv, lookup, validate, None);
    assert ChopFirst("." + path) == path;
    AppendAssociative("'", path + ".type", NotAnExchangeType);
    AppendAssociative("'", path, ".type");
  }

  /**
   * An empty object at the top (test/schema.unit.js:143-148): the validator's
   * path is empty, and the value is neither a queue nor an exchange, so it is
   * reported as `json`.
   */
  lemma EmptyObjectMessage(jv: JsonValidator, lookup: KeyLookup, message: string)
    requires lookup(JObj(map[]), "") == Some(JObj(map[]))
    ensures GetMessage(jv, lookup, Report(JObj(map[]), [ValidatorError("", "oneOf", message)]), None)
         == Ok(Text("'json'" + NotQueueOrExchange))
  {
    assert ChopFirst("") == "";
    assert !Exists(Prop(JObj(map[]), "queue")) && !Exists(Prop(JObj(map[]), "exchange"));
    JsonQuoted();
  }

  lemma AppendAssociative(a: string, b: string, c: string)
    ensures a + b + c == a + (b + c)
  {
  }

  /** The top of the data, quoted. */
  lemma JsonQuoted()
    ensures "'" + JoinPath(None, ShownPath("")) + "'" == "'json'"
  {
    assert ShownPath("") == "json";
  }
}
