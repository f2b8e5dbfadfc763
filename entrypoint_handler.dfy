/** ingest-entrypoint/handler.js: the log-event schema of the HTTP-facing
    variant and the `entrypoint` Lambda handler, which checks size and schema,
    answers at once and hands the event on to the ingest function. */
module EntrypointHandler {
  import opened Json
  import opened Joi
  import opened Admission
  import IngestHandler

  // The key/value, file and exception sub-schemas and the context rule read
  // the same in both handlers; the ones of ingest/handler.js are reused.

  const RequestObject: Schema := ClosedObject([
    Key("url", BoundedString(1000, true), true),
    Key("method", BoundedString(100, true), true),
    Key("client_ip", IpString, false),
    Key("query_strings", ArrayOf(IngestHandler.KeyValueSchema, 0), true),
    Key("body_fields", ArrayOf(IngestHandler.KeyValueSchema, 0), true),
    Key("headers", ArrayOf(IngestHandler.KeyValueSchema, 0), true),
    Key("files", ArrayOf(IngestHandler.FileSchema, 0), true)])

  const EventSchema: Schema := ClosedObject([
    Key("time", IsoDateString, true),
    Key("type", BoundedString(100, true), true),
    Key("message", BoundedString(1000, true), true),
    Key("level", EnumString(IngestHandler.Levels), true),
    Key("request", Nullable(RequestObject), true),
    Key("exception", Nullable(IngestHandler.ExceptionObject), true),
    Key("context", IngestHandler.ContextSchema, true)])

  const EventKeys: set<string> := {"time", "type", "message", "level", "request", "exception", "context"}

  const RequestKeys: set<string> :=
    {"url", "method", "client_ip", "query_strings", "body_fields", "headers", "files"}

  /** Joi.validate(input, schema) reports no error; the root schema is strict(). */
  predicate Validate(input: Value, g: Grammars) {
    Conforms(input, EventSchema, g, false)
  }

  // ---------------------------------------------------------------------------
  // Facts about the schema constants

  lemma EventNames()
    ensures forall n :: n in Names(EventSchema.keys) <==> n in EventKeys
  {
    NamesAre(EventSchema.keys, ["time", "type", "message", "level", "request", "exception", "context"]);
  }

  lemma RequestDistinct()
    ensures DistinctNames(RequestObject.keys)
  {
  }

  lemma EventDistinct()
    ensures DistinctNames(EventSchema.keys)
  {
  }

  lemma EventKeyNames()
    ensures EventSchema.keys[1].name == "type" && EventSchema.keys[4].name == "request"
    ensures EventSchema.keys[5].name == "exception"
    ensures IngestHandler.ExceptionObject.keys[3].name == "line"
  {
  }

  lemma EventKeySchemas()
    ensures EventSchema.keys[4].schema == Nullable(RequestObject)
    ensures EventSchema.keys[5].schema == Nullable(IngestHandler.ExceptionObject)
  {
  }

  lemma TypeAccepts(x: Value, g: Grammars)
    ensures Conforms(x, EventSchema.keys[1].schema, g, false) <==> IngestHandler.ShortText(x, 100)
  {
  }

  lemma RequestAcceptsNull(g: Grammars)
    ensures Conforms(Null, EventSchema.keys[4].schema, g, false)
  {
  }

  /** Where `k` sits among the keys of `request`, and what is declared there. */
  lemma RequestKey(k: string) returns (i: nat)
    requires k in RequestKeys
    ensures i < |RequestObject.keys| && RequestObject.keys[i].name == k
    ensures RequestObject.keys[i].required <==> k != "client_ip"
    ensures k in IngestHandler.SequenceKeys ==>
            RequestObject.keys[i].schema == ArrayOf(IngestHandler.ItemSchema(k), 0)
    ensures k == "url" ==> RequestObject.keys[i].schema == BoundedString(1000, true)
    ensures k == "method" ==> RequestObject.keys[i].schema == BoundedString(100, true)
  {
    i := if k == "url" then 0 else if k == "method" then 1 else if k == "client_ip" then 2
         else if k == "query_strings" then 3 else if k == "body_fields" then 4
         else if k == "headers" then 5 else 6;
  }

  lemma ArrayAccepts(x: Value, item: Schema, g: Grammars)
    ensures Conforms(x, ArrayOf(item, 0), g, false) <==>
            x.Arr? && forall i :: 0 <= i < |x.items| ==> Conforms(x.items[i], item, g, false)
  {
  }

  // ---------------------------------------------------------------------------
  // What the schema accepts

  /** An accepted event is an object with exactly the seven listed keys. */
  lemma EventKeysExact(v: Value, g: Grammars)
    ensures Validate(v, g) ==> v.Obj? && v.fields.Keys == EventKeys
  {
    if Validate(v, g) {
      ClosedObjectKeys(v, EventSchema.keys, g, false);
      EventNames();
    }
  }

  /** `type` is a required non-empty string of at most 100 UTF-16 code units. */
  lemma TypeRule(v: Value, x: Value, g: Grammars)
    requires Validate(v, g)
    ensures Validate(WithField(v, "type", x), g) <==> IngestHandler.ShortText(x, 100)
  {
    EventDistinct();
    ReplaceKey(v, EventSchema, 1, x, g, false);
    EventKeyNames();
    TypeAccepts(x, g);
  }

  /** `request` is required but may be null. */
  lemma RequestNullable(v: Value, g: Grammars)
    requires Validate(v, g)
    ensures Validate(WithField(v, "request", Null), g)
  {
    EventDistinct();
    ReplaceKey(v, EventSchema, 4, Null, g, false);
    EventKeyNames();
    RequestAcceptsNull(g);
  }

  /** The four sequences inside `request` have no min() and no allow(null):
      any array of conforming elements passes, the empty one included, and
      null or a missing sequence rejects. */
  lemma SequenceRule(v: Value, k: string, x: Value, g: Grammars)
    requires Validate(v, g) && v.Obj? && "request" in v.fields && IngestHandler.RequestOf(v).Obj?
    requires k in IngestHandler.SequenceKeys
    ensures Validate(WithField(v, "request", WithField(IngestHandler.RequestOf(v), k, x)), g)
            <==> x.Arr? && forall i :: 0 <= i < |x.items| ==>
                             Conforms(x.items[i], IngestHandler.ItemSchema(k), g, false)
  {
    EventDistinct();
    RequestDistinct();
    EventKeySchemas();
    EventKeyNames();
    var j := RequestKey(k);
    ReplaceNested(v, EventSchema, 4, RequestObject, j, x, g, false);
    ArrayAccepts(x, IngestHandler.ItemSchema(k), g);
  }

  /** `request.url` and `request.method` are non-empty strings, capped at
      1000 and 100 UTF-16 code units. */
  lemma RequestTextRule(v: Value, k: string, x: Value, g: Grammars)
    requires Validate(v, g) && v.Obj? && "request" in v.fields && IngestHandler.RequestOf(v).Obj?
    requires k in {"url", "method"}
    ensures Validate(WithField(v, "request", WithField(IngestHandler.RequestOf(v), k, x)), g)
            <==> IngestHandler.ShortText(x, if k == "url" then 1000 else 100)
  {
    EventDistinct();
    RequestDistinct();
    EventKeySchemas();
    EventKeyNames();
    var j := RequestKey(k);
    ReplaceNested(v, EventSchema, 4, RequestObject, j, x, g, false);
    IngestHandler.BoundedStringAccepts(x, if k == "url" then 1000 else 100, true, g);
  }

  /** The string keys of `exception` carry the caps of the ingest schema. */
  lemma ExceptionTextRule(v: Value, k: string, x: Value, g: Grammars)
    requires Validate(v, g) && v.Obj? && "exception" in v.fields && v.fields["exception"].Obj?
    requires k in IngestHandler.ExceptionTextKeys
    ensures Validate(WithField(v, "exception", WithField(v.fields["exception"], k, x)), g)
            <==> IngestHandler.ShortText(x, IngestHandler.ExceptionCap(k))
  {
    EventDistinct();
    IngestHandler.ExceptionDistinct();
    EventKeySchemas();
    EventKeyNames();
    var j := IngestHandler.ExceptionKey(k);
    ReplaceNested(v, EventSchema, 5, IngestHandler.ExceptionObject, j, x, g, false);
    IngestHandler.BoundedStringAccepts(x, IngestHandler.ExceptionCap(k), true, g);
  }

  /** `exception.line` is an integer with 0 < n <= 99999999. */
  lemma ExceptionLineRule(v: Value, x: Value, g: Grammars)
    requires Validate(v, g) && v.Obj? && "exception" in v.fields && v.fields["exception"].Obj?
    ensures Validate(WithField(v, "exception", WithField(v.fields["exception"], "line", x)), g)
            <==> IngestHandler.PositiveBounded(x)
  {
    EventDistinct();
    IngestHandler.ExceptionDistinct();
    EventKeySchemas();
    EventKeyNames();
    ReplaceNested(v, EventSchema, 5, IngestHandler.ExceptionObject, 3, x, g, false);
    IngestHandler.LineAccepts(x, g);
  }

  /** Inside `request` only `client_ip` may be left out. */
  lemma RequestKeyRule(v: Value, k: string, g: Grammars)
    requires Validate(v, g) && v.Obj? && "request" in v.fields && IngestHandler.RequestOf(v).Obj?
    requires k in RequestKeys
    ensures Validate(WithField(v, "request", WithoutField(IngestHandler.RequestOf(v), k)), g) <==> k == "client_ip"
  {
    EventDistinct();
    RequestDistinct();
    EventKeySchemas();
    EventKeyNames();
    var j := RequestKey(k);
    RemoveNested(v, EventSchema, 4, RequestObject, j, g, false);
  }

  /** No payload passes both schemas: this one requires `type`, which the
      ingest schema does not list and so refuses. */
  lemma SchemasDisjoint(v: Value, g: Grammars)
    ensures !(Validate(v, g) && IngestHandler.Validate(v, g))
  {
    assert "type" in EventKeys && "type" !in IngestHandler.EventKeys;
    EventKeysExact(v, g);
    IngestHandler.EventKeysExact(v, g);
  }

  // ---------------------------------------------------------------------------
  // The handler

  /** The arguments of the one lambda.invoke call. */
  datatype Invocation = Invocation(functionName: string, invocationType: string, payload: Value)

  const InvalidPayload: Response := Response(422, ErrorBody("Your log payload has validation errors."))
  const Accepted: Response := Response(201, EmptyBody)

  /** The `entrypoint` handler. `event` is the Lambda event, `input` the
      value JSON.parse made of its body and `size` what sizeof reported for
      it; `invokeError` is whether the invoke callback received an error. Each
      refusal returns at once; otherwise the ingest function is invoked
      asynchronously with the raw event, and 201 follows whatever the invoke
      reported. */
  method Entrypoint(event: Value, input: Value, size: nat, invokeError: bool, g: Grammars)
    returns (responses: seq<Response>, invocations: seq<Invocation>)
    ensures responses == [if Oversized(size) then PayloadTooLarge
                          else if !Validate(input, g) then InvalidPayload
                          else Accepted]
    ensures invocations == if Oversized(size) || !Validate(input, g) then []
                           else [Invocation("logwatch-ingest", "Event", event)]
    ensures responses[0].statusCode == 201 <==> invocations != []
  {
    if size > MaxPayloadSize {
      return [PayloadTooLarge], [];
    }
    if !Validate(input, g) {
      return [InvalidPayload], [];
    }
    invocations := [Invocation("logwatch-ingest", "Event", event)];
    // The invoke callback ignores its error argument.
    responses := [Accepted];
  }

  /** A failed invoke is still answered 201. */
  method InvokeFailureStillAccepted(event: Value, input: Value, size: nat, g: Grammars)
    returns (responses: seq<Response>)
    requires !Oversized(size) && Validate(input, g)
    ensures responses == [Accepted]
  {
    var invocations;
    responses, invocations := Entrypoint(event, input, size, true, g);
  }

  /** The two handlers in sequence, with `ingest` returning after each
      refusal. What the entrypoint invokes, the ingest function receives, and
      since the forwarded payload is the original event its body parses to
      the same `input`. Every payload the entrypoint accepts is then refused
      by the ingest schema and never written. */
  method Pipeline(event: Value, input: Value, size: nat, invokeError: bool,
                  uuid: string, bucket: string, putError: bool, g: Grammars)
    returns (front: seq<Response>, back: seq<Response>, puts: seq<IngestHandler.PutObject>)
    ensures |front| == 1
    ensures front[0] == Accepted ==> back == [IngestHandler.ValidationFailed] && puts == []
    ensures front[0] != Accepted ==> back == [] && puts == []
  {
    var invocations;
    front, invocations := Entrypoint(event, input, size, invokeError, g);
    back, puts := [], [];
    if invocations != [] {
      SchemasDisjoint(input, g);
      back, puts := IngestHandler.IngestWithReturns(input, size, uuid, bucket, putError, g);
    }
  }

  /** The same composition with `ingest` as written: the payload the
      entrypoint admits is answered 422 by the ingest schema, yet the
      handler goes on, writes it to S3 and ends with 201. */
  method PipelineAsWritten(event: Value, input: Value, size: nat, invokeError: bool,
                           uuid: string, bucket: string, putError: bool, g: Grammars)
    returns (front: seq<Response>, back: seq<Response>, puts: seq<IngestHandler.PutObject>)
    ensures |front| == 1
    ensures front[0] == Accepted ==>
              |back| >= 2 && back[0] == IngestHandler.ValidationFailed &&
              back[|back| - 1] == IngestHandler.Created(uuid) &&
              puts == [IngestHandler.PutObject(bucket, uuid + ".json",
                                               Obj(map["data" := input, "meta" := Obj(map["uuid" := Str(uuid)])]))]
    ensures front[0] != Accepted ==> back == [] && puts == []
  {
    var invocations;
    front, invocations := Entrypoint(event, input, size, invokeError, g);
    back, puts := [], [];
    if invocations != [] {
      SchemasDisjoint(input, g);
      back, puts := IngestHandler.Ingest(input, size, uuid, bucket, putError, g);
    }
  }
}
