# logging-lambdas in Dafny

A model of the two log-ingestion Lambda handlers of logging-lambdas and of
their API-token lookup.

- `ingest` (ingest/handler.js) receives a JSON log event. It refuses one
  whose estimated size is over 1048576 bytes, checks it against a Joi schema
  and writes it to an S3 bucket as `{data, meta: {uuid}}` under
  `<uuid>.json`.
- `entrypoint` (ingest-entrypoint/handler.js) makes the same two checks
  against its own schema. It answers the HTTP caller at once and hands the
  raw Lambda event on to the function `logwatch-ingest` by an asynchronous
  invoke.
- `findToken` (ingest/token-repository.js) looks up an API token. As shipped
  it answers with a fixed scope. The code after its early return is a file
  cache in front of a MySQL `tokens` table.

Files:

- `json.dfy` (module `Json`): parsed JSON values, and string length as
  JavaScript counts it, in UTF-16 code units.
- `joi.dfy` (module `Joi`): the Joi constructs both schemas use.
  - They are a `Schema` datatype with an interpreter, `Conforms`.
  - Generic lemmas cover `keys()` objects: unknown keys reject, required
    keys must be present, and each key is checked on its own.
  - `Truncate` is what `truncate()` would do. Lemmas relate the two readings
    of `strict()`.
- `admission.dfy` (module `Admission`): the size guard and the response
  values both handlers send.
- `ingest_handler.dfy` (module `IngestHandler`): the ingest schema, its
  rules key by key, and the handler as written. It also holds a corrected
  handler (see Findings).
- `entrypoint_handler.dfy` (module `EntrypointHandler`): the entrypoint
  schema, its rules, the handler, and the two handlers composed.
- `token_repository.dfy` (module `TokenRepository`): the token lookup, as a
  class whose `cache` map and `table` rows change in place.

Modelling choices:

- **Strict reading.**
  - Both root schemas end in `.strict()`. Strict mode turns off conversion,
    and truncation is a conversion.
  - So a `max(n).truncate()` string is accepted only when its UTF-16 length
    is at most n: `Validate` is `Conforms(…, false)`.
  - `Conforms(…, true)` and `Truncate` give the other reading.
    `IngestHandler.TruncationReadings` proves two facts about them. Under the
    strict reading nothing accepted would be cut. Under the other reading
    truncation always yields a strictly valid event.
- **Empty strings.** `Joi.string()` refuses the empty string unless it is
  explicitly allowed, and no schema here allows it.
- **Grammars.**
  - `isoDate()` and `ip({version: ['ipv4', 'ipv6'], cidr: 'forbidden'})`
    are Joi's own grammars.
  - They enter as function fields of a `Grammars` parameter, and every rule
    holds whatever they accept.
- **Parameters.** The following come in as parameters of the handler
  methods:
  - the object-sizeof estimate (`size`)
  - the uuid
  - the bucket name (`LOGS_BUCKET`)
  - whether S3 or the invoke reported an error
  - whether the database query failed
  - whether writing the cache file threw
- **Responses.**
  - Each handler returns the sequence of values it passes to its callback,
    in order.
  - The `putObject` and `invoke` calls are returned as values holding their
    arguments.
  - The token cache is a field of a `Repository` object, and lookups change
    it in place.
- **The `type` key.** The entrypoint schema marks `type` `.required()`
  (ingest-entrypoint/handler.js:10), so an event without it is refused.

## Model

| member | source | states |
|---|---|---|
| Json.Utf16Length | ingest/handler.js:11 | The length that `max()` compares is between the number of characters and twice it, and is 0 only for the empty string. |
| Json.Prefix16 | ingest/handler.js:11 | `truncate()` keeps a prefix within the cap, keeps a string already within the cap whole, and stops only where the next character would exceed the cap. |
| Joi.ClosedObjectKeys | ingest/handler.js:9 | An object accepted by `keys({...})` has no key the schema does not list; when every key is required it has exactly the listed keys. |
| Joi.AllRequiredConforms | ingest/handler.js:16-19 | When every key is required, an object is accepted iff it has exactly the listed keys and each value passes its own schema. |
| Joi.ReplaceKey | ingest/handler.js:9-42 | In an accepted object, a new value for one key keeps the object accepted iff the value passes that key's schema. |
| Joi.RemoveKey | ingest/handler.js:9-42 | Dropping one key from an accepted object keeps it accepted iff the key is optional. |
| Joi.ReplaceNested | ingest/handler.js:13-33 | ReplaceKey for a key of a nullable sub-object: the whole event stays accepted iff the new value passes the inner key's schema. |
| Joi.RemoveNested | ingest/handler.js:13-33 | Removing a key of a nullable sub-object keeps the event accepted iff that inner key is optional. |
| Joi.Truncate | ingest/handler.js:11 | `truncate()` keeps each value's kind, an object's keys and an array's length; a string becomes a prefix of itself. |
| Joi.StrictImpliesTruncating | ingest/handler.js:42 | Whatever passes under `strict()` also passes when truncation may run. |
| Joi.TruncateKeepsStrict | ingest/handler.js:42 | Truncation leaves a value accepted under `strict()` exactly as it was. |
| Joi.TruncateRepairs | ingest/handler.js:11-42 | A value accepted when truncation may run becomes, once truncated, a value accepted under `strict()`. |
| Joi.TruncateIdempotent | ingest/handler.js:11 | Truncating twice gives what truncating once gives. |
| IngestHandler.EventSchemaWellFormed | ingest/handler.js:9-42 | Every string cap of the schema is at least 2 code units and no object lists a key twice. |
| IngestHandler.EventKeysExact | ingest/handler.js:9-42 | An accepted event has exactly the keys time, message, level, request, exception and context. |
| IngestHandler.TimeRule | ingest/handler.js:10 | `time` is accepted iff it is a non-empty string the ISO-date grammar accepts. |
| IngestHandler.MessageRule | ingest/handler.js:11 | `message` is accepted iff it is a non-empty string of at most 1000 UTF-16 code units; a longer one is refused, not cut. |
| IngestHandler.LevelRule | ingest/handler.js:12 | `level` is accepted iff it is one of the eight level names. |
| IngestHandler.SubRecordsNullable | ingest/handler.js:33-41 | `request`, `exception` and `context` may each be null. |
| IngestHandler.ContextRule | ingest/handler.js:41 | `context` is accepted iff it is null or an object of at most 100 keys, whatever the keys are. |
| IngestHandler.ExceptionLineRule | ingest/handler.js:38 | `exception.line` is accepted iff it is an integer n with 0 < n <= 99999999. |
| IngestHandler.SequenceRule | ingest/handler.js:16-32 | Each of query_strings, body_fields, headers and files is accepted iff it is null or a non-empty array whose every element passes the element schema. |
| IngestHandler.RequestUrlRule | ingest/handler.js:14 | `request.url` is accepted iff it is a non-empty string of at most 1000 UTF-16 code units. |
| IngestHandler.ExceptionTextRule | ingest/handler.js:35-39 | `exception.message` and `file` are accepted iff non-empty strings of at most 1000 code units, `code` at most 100, and `trace_string` at most 10000. |
| IngestHandler.RequestKeyRule | ingest/handler.js:13-33 | Within `request`, removing one listed key keeps the event accepted iff the key is `ip`. |
| IngestHandler.KeyValueItemRule | ingest/handler.js:16-19 | A sequence element is accepted iff it has exactly the keys key and value, each a non-empty string of at most 1000 code units. |
| IngestHandler.FileItemRule | ingest/handler.js:28-31 | A file element is accepted iff it has exactly the keys name, mimeType and size, with caps 1000 and 100 and size an integer in (0, 99999999]. |
| IngestHandler.TruncationReadings | ingest/handler.js:9-42 | Under the strict reading an accepted event is never cut; under the other reading truncation makes every accepted event strictly valid. |
| IngestHandler.Ingest | ingest/handler.js:44-96 | The object `{data: input, meta: {uuid}}` is always written under `uuid.json`. The responses are 413 if size > 1048576, then 422 if invalid, then 500 if the put failed, then always 201. |
| IngestHandler.OversizedInvalidStillStored | ingest/handler.js:48-94 | A body that is one JSON string of more than 524288 UTF-16 code units is over the size limit, since object-sizeof counts two bytes per code unit, and it is not an event object. It is answered 413, 422 and 201, and is still written. |
| IngestHandler.IngestWithReturns | ingest/handler.js:44-96 | With a return after each callback: exactly one response, and the write happens only for an admitted event. |
| EntrypointHandler.EventKeysExact | ingest-entrypoint/handler.js:8-43 | An accepted event has exactly the ingest keys plus `type`. |
| EntrypointHandler.TypeRule | ingest-entrypoint/handler.js:10 | `type` is accepted iff it is a non-empty string of at most 100 code units. |
| EntrypointHandler.RequestNullable | ingest-entrypoint/handler.js:34 | `request` may be null. |
| EntrypointHandler.SequenceRule | ingest-entrypoint/handler.js:17-33 | Each of the four sequences is accepted iff it is an array of conforming elements: the empty array passes, null rejects. |
| EntrypointHandler.RequestKeyRule | ingest-entrypoint/handler.js:13-34 | Within `request`, removing one listed key keeps the event accepted iff the key is `client_ip`; `method` is required. |
| EntrypointHandler.RequestTextRule | ingest-entrypoint/handler.js:14-15 | `request.url` is accepted iff it is a non-empty string of at most 1000 code units, and `request.method` iff one of at most 100. |
| EntrypointHandler.ExceptionTextRule | ingest-entrypoint/handler.js:36-40 | The string keys of `exception` are capped as in the ingest schema: 1000 for message and file, 100 for code, 10000 for trace_string. |
| EntrypointHandler.ExceptionLineRule | ingest-entrypoint/handler.js:39 | `exception.line` is accepted iff it is an integer n with 0 < n <= 99999999. |
| EntrypointHandler.SchemasDisjoint | ingest-entrypoint/handler.js:8-12 | No payload passes both schemas. |
| EntrypointHandler.Entrypoint | ingest-entrypoint/handler.js:45-83 | Exactly one response: 413 if oversized, else 422 with the fixed message, else 201 with an empty body. The raw event is invoked only in the last case, and the invoke error is ignored. |
| EntrypointHandler.InvokeFailureStillAccepted | ingest-entrypoint/handler.js:76-82 | An admitted event is answered 201 even when the invoke fails. |
| EntrypointHandler.Pipeline | ingest-entrypoint/handler.js:72-76 | Composing the entrypoint with the corrected `ingest` on the same parsed input and size: every payload the entrypoint admits is answered 422 by `ingest` and never written. |
| EntrypointHandler.PipelineAsWritten | ingest-entrypoint/handler.js:72-76 | Composing the entrypoint with `ingest` as written: every payload the entrypoint admits is answered 422 first, ends with 201, and is written once with `data` equal to the input. |
| TokenRepository.Query | ingest/token-repository.js:30 | The SELECT returns only rows with that exact token and revoked = 0, returns every such row, and returns first the row that comes first in the sequence. |
| TokenRepository.NoLiveRow | ingest/token-repository.js:30-43 | The SELECT is empty iff the table has no live row for the token. |
| TokenRepository.Repository.FindTokenShipped | ingest/token-repository.js:7-12 | As shipped, every lookup answers once with account 1, environment 2, and touches nothing. |
| TokenRepository.Repository.FindTokenIntended | ingest/token-repository.js:14-44 | A cache hit returns the cached row with no query. A miss queries once: a database error gives no callback and no cache change; a live row is cached under that token alone and returned, unless writing the cache file throws, which gives no callback and no cache change; no row gives null and no cache change. Every cached row is stored under its own token, and was live in the table when it was written; the table itself is not changed. |
| TokenRepository.StaleAfterRevocation | ingest/token-repository.js:15-17 | For any repository, any cached token, any new table contents and either database outcome: after the table changes, the lookup returns the cached row, makes no query and leaves the cache as it was. |
| TokenRepository.RevocationSeenUncached | ingest/token-repository.js:30-43 | For any repository, a token that is not cached and has no live row in the table (for instance because it is revoked) is answered null after one query, and the cache is unchanged. |

## Left out

- The AWS SDK calls `s3.putObject` and `lambda.invoke` are foreign I/O. They are modelled only as their arguments and an error flag.
- JSON.parse of the event body is not modelled: the handlers take the parsed value. A malformed body throws in the source, and nothing handles it.
- JSON.stringify and the form of the response bodies are not modelled. The body of the 422 in `ingest` is Joi's error object; it is library output, modelled as one constant.
- object-sizeof's estimate is a parameter, and only the `> 1048576` comparison is modelled.
- Joi's ISO-date and IP grammars are library code and are modelled as parameters.
- `uuidv4()` is randomness and is modelled as a parameter.
- `console.log` is output only.
- Lambda's platform rule about which of several callback calls takes effect is not modelled. The model records every callback in order.
- Numbers are reals, not IEEE doubles, so rounding at the 99999999 bound is not modelled.
- Strings are sequences of Unicode scalar values. A lone UTF-16 surrogate cannot be written, so `truncate()` cutting a surrogate pair in half is not modelled.
- The MySQL connection, `connect` and `end` are not modelled. The SELECT is `Query` over a sequence of rows that compares tokens exactly; database collation is not modelled. The SELECT has no ORDER BY: the order of the sequence stands for the order in which MySQL happens to return the rows.
- A database error is thrown inside the query callback. The model ends the call with no reply; the uncaught throw itself is not modelled.
- The `/tmp/token-cache-<token>` files and the JSON round trip of a cached row are modelled as a map from token to row. When the token makes the file name impossible to create, writeFileSync throws before `cb` is called. This happens for a token holding `/` (the path names a directory that does not exist), holding NUL, or too long for a file name. The model takes this as the `writeError` parameter of FindTokenIntended, with no reply and no cache change. Which tokens cause it is not modelled.
- `Repository.SetTable` stands for a change made to the table by another program. The repository itself has no such operation.
- EntrypointHandler.Pipeline and EntrypointHandler.PipelineAsWritten assume that the function named `logwatch-ingest` (ingest-entrypoint/handler.js:73) is the `ingest` handler of ingest/handler.js. None of the modelled source files says so; the deployment configuration is not part of this model. They also assume that `ingest` receives the forwarded event and parses its body to the same value. Lambda's delivery and the JSON round trip of the event are not modelled. So the rejection they show is a consequence of that assumption, not a claimed defect.

## Findings

| source | as written | input that shows it | evidently intended | confidence | as-written member | corrected member |
|---|---|---|---|---|---|---|
| ingest/handler.js:48-94 | No `return` follows the 413, 422 or 500 callback. So the handler goes on, writes the event to S3, and finally calls back with 201. | A body that is one JSON string of 600000 characters has a size estimate of 1200000 bytes and is not an object. It is answered 413, 422 and 201, and is still written to the bucket. | Stop after the first refusing callback, as ingest-entrypoint/handler.js:56 and 69 do. | not executed | IngestHandler.OversizedInvalidStillStored | IngestHandler.IngestWithReturns |
