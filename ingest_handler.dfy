/** ingest/handler.js: the log-event schema of the S3 variant and the
    `ingest` Lambda handler, which checks size and schema and writes the event
    to S3. */
module IngestHandler {
  import opened Json
  import opened Joi
  import opened Admission

  const Levels: seq<string> :=
    ["debug", "info", "notice", "warning", "error", "critical", "alert", "emergency"]

  /** The bound of every positive integer field. */
  const MaxNumber: nat := 99999999

  const KeyValueSchema: Schema := ClosedObject([
    Key("key", BoundedString(1000, true), true),
    Key("value", BoundedString(1000, true), true)])

  const FileSchema: Schema := ClosedObject([
    Key("name", BoundedString(1000, true), true),
    Key("mimeType", BoundedString(100, true), true),
    Key("size", BoundedPositiveInteger(MaxNumber), true)])

  const RequestObject: Schema := ClosedObject([
    Key("url", BoundedString(1000, true), true),
    Key("ip", IpString, false),
    Key("query_strings", Nullable(ArrayOf(KeyValueSchema, 1)), true),
    Key("body_fields", Nullable(ArrayOf(KeyValueSchema, 1)), true),
    Key("headers", Nullable(ArrayOf(KeyValueSchema, 1)), true),
    Key("files", Nullable(ArrayOf(FileSchema, 1)), true)])

  const ExceptionObject: Schema := ClosedObject([
    Key("message", BoundedString(1000, true), true),
    Key("code", BoundedString(100, true), true),
    Key("file", BoundedString(1000, true), true),
    Key("line", BoundedPositiveInteger(MaxNumber), true),
    Key("trace_string", BoundedString(10000, true), true)])

  const ContextSchema: Schema := Nullable(OpenObject(100))

  const EventSchema: Schema := ClosedObject([
    Key("time", IsoDateString, true),
    Key("message", BoundedString(1000, true), true),
    Key("level", EnumString(Levels), true),
    Key("request", Nullable(RequestObject), true),
    Key("exception", Nullable(ExceptionObject), true),
    Key("context", ContextSchema, true)])

  const EventKeys: set<string> := {"time", "message", "level", "request", "exception", "context"}

  const RequestKeys: set<string> := {"url", "ip", "query_strings", "body_fields", "headers", "files"}

  const SequenceKeys: set<string> := {"query_strings", "body_fields", "headers", "files"}

  /** The string keys of `exception`. */
  const ExceptionTextKeys: set<string> := {"message", "code", "file", "trace_string"}

  /** Joi.validate(input, schema) reports no error; the root schema is strict(). */
  predicate Validate(input: Value, g: Grammars) {
    Conforms(input, EventSchema, g, false)
  }

  /** A non-empty string of at most `cap` UTF-16 code units. */
  predicate ShortText(v: Value, cap: nat) {
    NonEmptyString(v) && Utf16Length(v.s) <= cap
  }

  /** An integer n with 0 < n <= MaxNumber. */
  predicate PositiveBounded(v: Value) {
    v.Num? && IsInteger(v.n) && 0.0 < v.n <= MaxNumber as real
  }

  /** The element schema of each of the four sequences inside `request`. */
  function ItemSchema(k: string): Schema {
    if k == "files" then FileSchema else KeyValueSchema
  }

  /** The cap on each string key of `exception`. */
  function ExceptionCap(k: string): nat {
    if k == "code" then 100 else if k == "trace_string" then 10000 else 1000
  }

  /** The request entry of an event. */
  function RequestOf(v: Value): Value
    requires v.Obj? && "request" in v.fields
  {
    v.fields["request"]
  }

  // ---------------------------------------------------------------------------
  // Facts about the schema constants, kept small so that each proof below
  // unfolds the schema only where it needs to

  lemma KeyValueNames()
    ensures forall n :: n in Names(KeyValueSchema.keys) <==> n in {"key", "value"}
  {
    NamesAre(KeyValueSchema.keys, ["key", "value"]);
  }

  lemma FileNames()
    ensures forall n :: n in Names(FileSchema.keys) <==> n in {"name", "mimeType", "size"}
  {
    NamesAre(FileSchema.keys, ["name", "mimeType", "size"]);
  }

  lemma EventNames()
    ensures forall n :: n in Names(EventSchema.keys) <==> n in EventKeys
  {
    NamesAre(EventSchema.keys, ["time", "message", "level", "request", "exception", "context"]);
  }

  lemma RequestDistinct()
    ensures DistinctNames(RequestObject.keys)
  {
  }

  lemma ExceptionDistinct()
    ensures DistinctNames(ExceptionObject.keys)
  {
  }

  lemma EventDistinct()
    ensures DistinctNames(EventSchema.keys)
  {
  }

  /** Every cap of the schema is at least two code units and no object
      lists a key twice. */
  lemma EventSchemaWellFormed()
    ensures WellFormed(EventSchema)
  {
    RequestDistinct();
    ExceptionDistinct();
    EventDistinct();
    assert WellFormed(KeyValueSchema) && WellFormed(FileSchema);
    forall i | 0 <= i < |RequestObject.keys| ensures WellFormed(RequestObject.keys[i].schema) {
    }
    forall i | 0 <= i < |ExceptionObject.keys| ensures WellFormed(ExceptionObject.keys[i].schema) {
    }
    assert WellFormed(RequestObject) && WellFormed(ExceptionObject);
    forall i | 0 <= i < |EventSchema.keys| ensures WellFormed(EventSchema.keys[i].schema) {
    }
  }

  /** ReplaceKey for the event schema, stated with the key as the schema names it. */
  lemma EventFieldRule(v: Value, i: nat, x: Value, g: Grammars)
    requires Validate(v, g) && i < |EventSchema.keys|
    ensures Validate(WithField(v, EventSchema.keys[i].name, x), g)
            <==> Conforms(x, EventSchema.keys[i].schema, g, false)
  {
    EventDistinct();
    ReplaceKey(v, EventSchema, i, x, g, false);
  }

  lemma EventKeyNames()
    ensures EventSchema.keys[0].name == "time" && EventSchema.keys[1].name == "message"
    ensures EventSchema.keys[2].name == "level" && EventSchema.keys[3].name == "request"
    ensures EventSchema.keys[4].name == "exception" && EventSchema.keys[5].name == "context"
    ensures ExceptionObject.keys[3].name == "line"
  {
  }

  /** The schema of each top-level key. */
  lemma EventKeySchemas()
    ensures EventSchema.keys[3].schema == Nullable(RequestObject)
    ensures EventSchema.keys[4].schema == Nullable(ExceptionObject)
  {
  }

  // What the schema of each key accepts on its own; one lemma per key so
  // that each is proved apart from the rest of the event schema.

  lemma TimeAccepts(x: Value, g: Grammars)
    ensures Conforms(x, EventSchema.keys[0].schema, g, false) <==> NonEmptyString(x) && g.isIsoDate(x.s)
  {
  }

  lemma MessageAccepts(x: Value, g: Grammars)
    ensures Conforms(x, EventSchema.keys[1].schema, g, false) <==> ShortText(x, 1000)
  {
  }

  lemma LevelAccepts(x: Value, g: Grammars)
    ensures Conforms(x, EventSchema.keys[2].schema, g, false) <==>
            x.Str? && x.s in {"debug", "info", "notice", "warning", "error", "critical", "alert", "emergency"}
  {
  }

  lemma NullAccepted(i: nat, g: Grammars)
    requires 3 <= i < 6
    ensures Conforms(Null, EventSchema.keys[i].schema, g, false)
  {
  }

  lemma ContextAccepts(x: Value, g: Grammars)
    ensures Conforms(x, EventSchema.keys[5].schema, g, false) <==> x.Null? || (x.Obj? && |x.fields| <= 100)
  {
  }

  lemma LineAccepts(x: Value, g: Grammars)
    ensures Conforms(x, ExceptionObject.keys[3].schema, g, false) <==> PositiveBounded(x)
  {
  }

  lemma BoundedStringAccepts(x: Value, n: nat, t: bool, g: Grammars)
    ensures Conforms(x, BoundedString(n, t), g, false) <==> ShortText(x, n)
  {
  }

  /** Where the string key `k` sits among the keys of `exception`, and its cap. */
  lemma ExceptionKey(k: string) returns (j: nat)
    requires k in ExceptionTextKeys
    ensures j < |ExceptionObject.keys| && ExceptionObject.keys[j].name == k
    ensures ExceptionObject.keys[j].schema == BoundedString(ExceptionCap(k), true)
  {
    j := if k == "message" then 0 else if k == "code" then 1 else if k == "file" then 2 else 4;
  }

  lemma NullableArrayAccepts(x: Value, item: Schema, g: Grammars)
    ensures Conforms(x, Nullable(ArrayOf(item, 1)), g, false) <==>
            x.Null? || (x.Arr? && |x.items| >= 1 &&
                        forall i :: 0 <= i < |x.items| ==> Conforms(x.items[i], item, g, false))
  {
  }

  // ---------------------------------------------------------------------------
  // What the schema accepts, key by key

  /** An accepted event is an object with exactly the six listed keys: an
      extra key or a missing one rejects. */
  lemma EventKeysExact(v: Value, g: Grammars)
    ensures Validate(v, g) ==> v.Obj? && v.fields.Keys == EventKeys
  {
    if Validate(v, g) {
      ClosedObjectKeys(v, EventSchema.keys, g, false);
      EventNames();
    }
  }

  lemma TimeRule(v: Value, x: Value, g: Grammars)
    requires Validate(v, g)
    ensures Validate(WithField(v, "time", x), g) <==> NonEmptyString(x) && g.isIsoDate(x.s)
  {
    EventFieldRule(v, 0, x, g);
    EventKeyNames();
    TimeAccepts(x, g);
  }

  /** Under strict() a message over 1000 UTF-16 code units is refused, not cut. */
  lemma MessageRule(v: Value, x: Value, g: Grammars)
    requires Validate(v, g)
    ensures Validate(WithField(v, "message", x), g) <==> ShortText(x, 1000)
  {
    EventFieldRule(v, 1, x, g);
    EventKeyNames();
    MessageAccepts(x, g);
  }

  /** `level` is accepted exactly when it is one of the eight level names. */
  lemma LevelRule(v: Value, x: Value, g: Grammars)
    requires Validate(v, g)
    ensures Validate(WithField(v, "level", x), g) <==>
            x.Str? && x.s in {"debug", "info", "notice", "warning", "error", "critical", "alert", "emergency"}
  {
    EventFieldRule(v, 2, x, g);
    EventKeyNames();
    LevelAccepts(x, g);
  }

  /** `request`, `exception` and `context` are required but may be null. */
  lemma SubRecordsNullable(v: Value, k: string, g: Grammars)
    requires Validate(v, g) && k in {"request", "exception", "context"}
    ensures Validate(WithField(v, k, Null), g)
  {
    var i := if k == "request" then 3 else if k == "exception" then 4 else 5;
    EventFieldRule(v, i, Null, g);
    EventKeyNames();
    NullAccepted(i, g);
  }

  /** `context` is null or an object with any keys, at most 100 of them. */
  lemma ContextRule(v: Value, x: Value, g: Grammars)
    requires Validate(v, g)
    ensures Validate(WithField(v, "context", x), g) <==> x.Null? || (x.Obj? && |x.fields| <= 100)
  {
    EventFieldRule(v, 5, x, g);
    EventKeyNames();
    ContextAccepts(x, g);
  }

  /** `exception.line` is an integer with 0 < n <= 99999999: zero, negatives,
      fractions and 100000000 reject. */
  lemma ExceptionLineRule(v: Value, x: Value, g: Grammars)
    requires Validate(v, g) && v.Obj? && "exception" in v.fields && v.fields["exception"].Obj?
    ensures Validate(WithField(v, "exception", WithField(v.fields["exception"], "line", x)), g)
            <==> PositiveBounded(x)
  {
    EventDistinct();
    ExceptionDistinct();
    EventKeySchemas();
    EventKeyNames();
    ReplaceNested(v, EventSchema, 4, ExceptionObject, 3, x, g, false);
    LineAccepts(x, g);
  }

  /** The string keys of `exception` are non-empty and capped: `code` at 100
      UTF-16 code units, `trace_string` at 10000, `message` and `file` at 1000. */
  lemma ExceptionTextRule(v: Value, k: string, x: Value, g: Grammars)
    requires Validate(v, g) && v.Obj? && "exception" in v.fields && v.fields["exception"].Obj?
    requires k in ExceptionTextKeys
    ensures Validate(WithField(v, "exception", WithField(v.fields["exception"], k, x)), g)
            <==> ShortText(x, ExceptionCap(k))
  {
    EventDistinct();
    ExceptionDistinct();
    EventKeySchemas();
    EventKeyNames();
    var j := ExceptionKey(k);
    ReplaceNested(v, EventSchema, 4, ExceptionObject, j, x, g, false);
    BoundedStringAccepts(x, ExceptionCap(k), true, g);
  }

  /** Where `k` sits among the keys of `request`, and what is declared there. */
  lemma RequestKey(k: string) returns (i: nat)
    requires k in RequestKeys
    ensures i < |RequestObject.keys| && RequestObject.keys[i].name == k
    ensures RequestObject.keys[i].required <==> k != "ip"
    ensures k in SequenceKeys ==> RequestObject.keys[i].schema == Nullable(ArrayOf(ItemSchema(k), 1))
    ensures k == "url" ==> RequestObject.keys[i].schema == BoundedString(1000, true)
  {
    i := if k == "url" then 0 else if k == "ip" then 1 else if k == "query_strings" then 2
         else if k == "body_fields" then 3 else if k == "headers" then 4 else 5;
  }

  /** Each of the four sequences in `request` is null or a non-empty array
      whose every element passes the element schema. */
  lemma SequenceRule(v: Value, k: string, x: Value, g: Grammars)
    requires Validate(v, g) && v.Obj? && "request" in v.fields && RequestOf(v).Obj?
    requires k in SequenceKeys
    ensures Validate(WithField(v, "request", WithField(RequestOf(v), k, x)), g)
            <==> x.Null? || (x.Arr? && |x.items| >= 1 &&
                             forall i :: 0 <= i < |x.items| ==> Conforms(x.items[i], ItemSchema(k), g, false))
  {
    EventDistinct();
    RequestDistinct();
    EventKeySchemas();
    EventKeyNames();
    var j := RequestKey(k);
    ReplaceNested(v, EventSchema, 3, RequestObject, j, x, g, false);
    NullableArrayAccepts(x, ItemSchema(k), g);
  }

  /** `request.url` is a non-empty string of at most 1000 UTF-16 code units. */
  lemma RequestUrlRule(v: Value, x: Value, g: Grammars)
    requires Validate(v, g) && v.Obj? && "request" in v.fields && RequestOf(v).Obj?
    ensures Validate(WithField(v, "request", WithField(RequestOf(v), "url", x)), g) <==> ShortText(x, 1000)
  {
    EventDistinct();
    RequestDistinct();
    EventKeySchemas();
    EventKeyNames();
    var j := RequestKey("url");
    ReplaceNested(v, EventSchema, 3, RequestObject, j, x, g, false);
    BoundedStringAccepts(x, 1000, true, g);
  }

  /** Inside `request` only `ip` may be left out; removing any other listed
      key rejects. */
  lemma RequestKeyRule(v: Value, k: string, g: Grammars)
    requires Validate(v, g) && v.Obj? && "request" in v.fields && RequestOf(v).Obj?
    requires k in RequestKeys
    ensures Validate(WithField(v, "request", WithoutField(RequestOf(v), k)), g) <==> k == "ip"
  {
    EventDistinct();
    RequestDistinct();
    EventKeySchemas();
    EventKeyNames();
    var j := RequestKey(k);
    RemoveNested(v, EventSchema, 3, RequestObject, j, g, false);
  }

  /** An element of query_strings, body_fields or headers. */
  lemma KeyValueItemRule(x: Value, g: Grammars)
    ensures Conforms(x, KeyValueSchema, g, false) <==>
            x.Obj? && x.fields.Keys == {"key", "value"}
            && ShortText(x.fields["key"], 1000) && ShortText(x.fields["value"], 1000)
  {
    var ks := KeyValueSchema.keys;
    AllRequiredConforms(x, ks, g, false);
    KeyValueNames();
    assert Names(ks) == {"key", "value"};
    if x.Obj? && x.fields.Keys == {"key", "value"} {
      assert ks[0].name == "key" && ks[1].name == "value" && |ks| == 2;
    }
  }

  /** An element of files. */
  lemma FileItemRule(x: Value, g: Grammars)
    ensures Conforms(x, FileSchema, g, false) <==>
            x.Obj? && x.fields.Keys == {"name", "mimeType", "size"}
            && ShortText(x.fields["name"], 1000) && ShortText(x.fields["mimeType"], 100)
            && PositiveBounded(x.fields["size"])
  {
    var ks := FileSchema.keys;
    AllRequiredConforms(x, ks, g, false);
    FileNames();
    assert Names(ks) == {"name", "mimeType", "size"};
    if x.Obj? && x.fields.Keys == {"name", "mimeType", "size"} {
      FileFieldsAccept(x, g);
    }
  }

  lemma FileFieldsAccept(x: Value, g: Grammars)
    requires x.Obj? && x.fields.Keys == {"name", "mimeType", "size"}
    ensures (forall i :: 0 <= i < |FileSchema.keys| ==>
               Conforms(x.fields[FileSchema.keys[i].name], FileSchema.keys[i].schema, g, false))
            <==> ShortText(x.fields["name"], 1000) && ShortText(x.fields["mimeType"], 100)
                 && PositiveBounded(x.fields["size"])
  {
    var ks := FileSchema.keys;
    assert ks[0].name == "name" && ks[1].name == "mimeType" && ks[2].name == "size";
    assert |ks| == 3;
  }

  /** Under the strict reading an accepted event never needs truncation, and
      under the other reading truncation turns every event it accepts into one
      the strict reading accepts. */
  lemma TruncationReadings(v: Value, g: Grammars)
    ensures Validate(v, g) ==> Truncate(v, EventSchema) == v
    ensures Conforms(v, EventSchema, g, true) ==> Validate(Truncate(v, EventSchema), g)
  {
    if Validate(v, g) {
      TruncateKeepsStrict(v, EventSchema, g);
    }
    if Conforms(v, EventSchema, g, true) {
      EventSchemaWellFormed();
      TruncateRepairs(v, EventSchema, g);
    }
  }

  // ---------------------------------------------------------------------------
  // The handler

  /** The arguments of the one s3.putObject call. */
  datatype PutObject = PutObject(bucket: string, key: string, body: Value)

  const ValidationFailed: Response := Response(422, JoiErrorBody)
  const WriteFailed: Response := Response(500, NullBody)

  function Created(uuid: string): Response {
    Response(201, UuidBody(uuid))
  }

  /** The `ingest` handler as written. `size` is sizeof(input), `uuid` the
      value uuidv4() returned, `bucket` the LOGS_BUCKET setting and `putError`
      whether S3 passed an error to the putObject callback. No callback is
      followed by a return, so every step runs whatever the earlier ones
      answered: the event is always written, and the 201 always comes last. */
  method Ingest(input: Value, size: nat, uuid: string, bucket: string, putError: bool, g: Grammars)
    returns (responses: seq<Response>, puts: seq<PutObject>)
    ensures puts == [PutObject(bucket, uuid + ".json",
                               Obj(map["data" := input, "meta" := Obj(map["uuid" := Str(uuid)])]))]
    ensures responses == (if Oversized(size) then [PayloadTooLarge] else [])
                         + (if Validate(input, g) then [] else [ValidationFailed])
                         + (if putError then [WriteFailed] else [])
                         + [Created(uuid)]
    ensures responses[0].statusCode ==
            if Oversized(size) then 413 else if !Validate(input, g) then 422 else if putError then 500 else 201
    ensures responses[|responses| - 1] == Created(uuid)
  {
    responses, puts := [], [];
    if size > MaxPayloadSize {
      responses := responses + [PayloadTooLarge];
    }
    if !Validate(input, g) {
      responses := responses + [ValidationFailed];
    }
    var filename := uuid + ".json";
    var payload := Obj(map["data" := input, "meta" := Obj(map["uuid" := Str(uuid)])]);
    puts := puts + [PutObject(bucket, filename, payload)];
    if putError {
      responses := responses + [WriteFailed];
    }
    responses := responses + [Created(uuid)];
  }

  /** A body that is one long JSON string: object-sizeof counts two bytes per
      UTF-16 code unit of a string, so past 524288 code units it is
      oversized, and a string is not an event object, so it is invalid. It is
      answered 413 and then 422, yet it is still written to S3 and still
      answered 201. */
  method OversizedInvalidStillStored(s: string, g: Grammars) returns (responses: seq<Response>, puts: seq<PutObject>)
    requires 2 * Utf16Length(s) > MaxPayloadSize
    ensures |responses| == 3 && responses[0] == PayloadTooLarge && responses[1] == ValidationFailed
    ensures responses[2].statusCode == 201 && |puts| == 1
    ensures puts[0].body == Obj(map["data" := Str(s), "meta" := Obj(map["uuid" := Str("id")])])
  {
    responses, puts := Ingest(Str(s), 2 * Utf16Length(s), "id", "logs", false, g);
  }

  /** `ingest` with the return after each callback that the entrypoint
      variant has: exactly one response, and S3 is written only for an
      admitted event. */
  method IngestWithReturns(input: Value, size: nat, uuid: string, bucket: string, putError: bool, g: Grammars)
    returns (responses: seq<Response>, puts: seq<PutObject>)
    ensures |responses| == 1
    ensures Oversized(size) ==> responses == [PayloadTooLarge] && puts == []
    ensures !Oversized(size) && !Validate(input, g) ==> responses == [ValidationFailed] && puts == []
    ensures !Oversized(size) && Validate(input, g) ==>
            puts == [PutObject(bucket, uuid + ".json",
                               Obj(map["data" := input, "meta" := Obj(map["uuid" := Str(uuid)])]))]
            && responses == [if putError then WriteFailed else Created(uuid)]
  {
    if size > MaxPayloadSize {
      return [PayloadTooLarge], [];
    }
    if !Validate(input, g) {
      return [ValidationFailed], [];
    }
    var filename := uuid + ".json";
    var payload := Obj(map["data" := input, "meta" := Obj(map["uuid" := Str(uuid)])]);
    puts := [PutObject(bucket, filename, payload)];
    if putError {
      return [WriteFailed], puts;
    }
    responses := [Created(uuid)];
  }
}
