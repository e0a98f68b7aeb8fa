# S3 export plugin — a Dafny model

This project models the pure logic of the PostHog S3 export plugin, in both
of its variants. `index.ts` exports each batch it is given. `index.js`
buffers events itself and exports the buffer when it flushes. Both variants
do the same work at startup and at export time:

- **setup validation**: four required configuration entries are checked in a
  fixed order, and the first missing one aborts setup with its own message;
- **object keys**: `<prefix><day>/<time part>-<random hex>.jsonl`, where the
  day and time come from splitting an ISO-8601 timestamp at `T`. `index.ts`
  also strips `-` and `:` to form `dayTime`, and appends `.gz` or `.br`
  when compression is selected;
- **batch bodies**: every event is serialized and the lines are joined with
  `\n`, in batch order.

`index.js` adds more logic on top: the buffer's byte limit and timeout,
parsing the comma-separated list of event names to ignore, and
`processEvent`, which buffers every event that is not ignored.

Everything nondeterministic or foreign is a parameter:

- the clock is the ISO string from `toISOString`;
- the random source is the bytes from `randomBytes`;
- `JSON.stringify` is a function `Event -> string`;
- `parseInt` is given by its result, an `Option<int>` where `None` is `NaN`;
- gzip and brotli are symbolic wrappers on the body. `Decompress` undoes
  them.

Modules:

| module | file | contents |
|---|---|---|
| `Wrappers` | wrappers.dfy | `Option`, `Result` |
| `JsStrings` | js_strings.dfy | `split` on one character, `join`, `trim`, and deleting a character |
| `Hex` | hex.dfy | `toString('hex')` and its inverse |
| `PluginConfig` | plugin_config.dfy | the configuration and the ordered required-field check |
| `Batch` | batch.dfy | events and the newline-delimited body |
| `ObjectKey` | object_key.dfy | splitting the timestamp, the prefix, and the key layout |
| `Upload` | upload.dfy | the S3 client arguments and upload parameters |
| `IndexTs` | index_ts.dfy | `setupPlugin` and `exportEvents` of `index.ts` |
| `IndexJs` | index_js.dfy | `setupPlugin`, `processEvent` and `onFlush` of `index.js` |

Facts about the key formats worth knowing:

- In `index.ts`, `dayTime` keeps the milliseconds' dot and the `Z`, and a
  `-` separates it from the suffix, for example
  `2024-03-05/20240305-070809.123Z-<16 hex>.jsonl` (`IndexTs.IsoDayTime`).
- `index.js` keeps the time part's colons, has no compression, and uses
  20 random bytes rather than 8.
- Both variants require a region and have no encryption settings.

## Model

| member | source | states |
|---|---|---|
| PluginConfig.FirstMissing | index.ts:21-33 | no field is reported exactly when all four required entries are set and non-empty; a reported field is missing while every field checked before it is present |
| IndexTs.SetupPlugin | index.ts:21-39 | setup succeeds iff access key, secret, region and bucket are all non-empty; otherwise it fails with the message of the first missing one in that order; on success the client is built from the three credentials |
| IndexJs.SetupPlugin | index.js:5-52 | same success/failure rule with this variant's messages; on success the buffer is empty, its limits are the computed byte limit and timeout, and the ignore set is the parsed list |
| JsStrings.Split | index.ts:44 | `split` on one character yields one more part than there are separators; no part contains the separator; joining the parts with it gives the input back |
| JsStrings.SplitJoinRoundTrip | index.ts:51 | splitting the join of a non-empty list of separator-free parts (each possibly empty) returns exactly that list |
| JsStrings.JoinCount | index.ts:51 | joining n separator-free parts puts exactly n - 1 separators in the result |
| JsStrings.SplitJoinEmptyDeletes | index.ts:45 | `split(c).join('')` equals the input with every `c` deleted, which contains no `c` |
| JsStrings.Trim | index.js:51 | `trim` returns a contiguous slice whose removed ends are all white space and whose own ends are not |
| JsStrings.TrimIdempotent | index.js:51 | trimming twice is trimming once |
| Hex.Encode | index.ts:46 | the hex text has two characters per byte, all in `0-9a-f` |
| Hex.EncodeSpellsBytes | index.ts:46 | the two characters at position 2k are the high and low nibble digits of byte k |
| Hex.DecodeEncode | index.ts:46 | decoding the hex text gives back the bytes, so the suffix determines the random bytes |
| ObjectKey.SplitDate | index.ts:44 | `day` and `time` contain no `T`; the timestamp starts with `day`, `T`, `time`, and is exactly that when it has one `T` |
| ObjectKey.SplitDateTimeEndsAtT | index.ts:44 | the time part runs to the end of the timestamp or stops just before the next `T` |
| ObjectKey.IsoSplitDate | index.ts:43-44 | for a `toISOString` timestamp, `day` is `YYYY-MM-DD` and `time` is `HH:mm:ss.sssZ` |
| ObjectKey.KeyStartsWithDay | index.ts:50 | a key starts with the prefix, the day and `/` |
| ObjectKey.KeyDeterminesRandom | index.ts:46-50 | for a fixed prefix and timestamp, equal keys come from equal random bytes |
| Batch.BodyRoundTrip | index.ts:51 | for a non-empty batch of single-line serializations, splitting the body at `\n` returns the serialized events in batch order |
| Batch.BodyLineFeeds | index.ts:51 | such a body contains exactly one line feed fewer than there are events |
| Batch.EmptyBatchBody | index.ts:51 | an empty batch gives the empty body |
| Batch.SingleEventBody | index.test.ts:43-52 | a one-event body is exactly that event's serialization, so any parser that reads that serialization back recovers the event from the whole body |
| IndexTs.DayTime | index.ts:44-45 | `dayTime` is the day with all `-` deleted, `-`, and the time with all `:` deleted |
| IndexTs.IsoDayTime | index.ts:43-45 | for a `toISOString` timestamp, `dayTime` is the 20 characters `YYYYMMDD-HHmmss.sssZ` |
| IndexTs.IsoDayTimeHasNoColon | index.ts:45 | for a `toISOString` timestamp, `dayTime` contains no `:` |
| IndexTs.ExportEvents | index.ts:42-62 | bucket is the configured one; key is the shared layout plus the compression extension; decompressing the body gives the joined lines; at most one compression is applied, gzip exactly for `'gzip'`, brotli exactly for `'brotli'` |
| IndexTs.ExportKeyLayout | index.ts:46-50 | the key is prefix (or nothing) + day + `/` + dayTime + `-` + 16 lower-case hex digits + `.jsonl` + extension, and starts with prefix + day + `/` |
| IndexTs.ExportKeyExtension | index.ts:50-62 | the key ends in `.jsonl.gz` iff gzip, in `.jsonl.br` iff brotli, and in `.jsonl` iff neither |
| IndexTs.CompressionOnlyChangesExtensionAndBody | index.ts:48-62 | compared with no compression, compression keeps the bucket, appends only the extension to the key, and keeps the decompressed body |
| IndexTs.ExportBodyRoundTrip | index.ts:51 | the decompressed body of a non-empty batch splits at `\n` into the serialized events in order, with n - 1 line feeds |
| IndexTs.ExportKeysDistinct | index.ts:46-50 | two exports at the same instant with different random bytes get different keys |
| IndexJs.OrOne | index.js:26-27 | the parsed number is used unless it is `NaN` or 0, which give 1; never 0 |
| IndexJs.BufferLimit | index.js:26 | the byte limit is the parsed megabyte count times 1048576, or 1048576 when parsing gives `NaN` or 0; never 0 |
| IndexJs.TimeoutSeconds | index.js:27 | the timeout is the parsed minute count times 60, or 60 when parsing gives `NaN` or 0; never 0 |
| IndexJs.EventsToIgnore | index.js:50-52 | the ignore set is never empty; its names contain no comma and have no outer white space |
| IndexJs.EventsToIgnoreUnset | index.js:51 | an unset or empty list yields the set containing only the empty name |
| IndexJs.EventsToIgnoreOfList | index.js:50-52 | parsing a comma-joined non-empty list of comma-free entries gives exactly the set of those entries, each trimmed |
| IndexJs.EventsToIgnoreOfTrimmedList | index.js:50-52 | entries already free of outer white space are ignored under exactly their own names |
| IndexJs.ProcessEvent | index.js:55-60 | the event is returned unchanged; a non-ignored event is appended to the pending batch; an ignored one leaves all state unchanged; limits, client and ignore set never change |
| IndexJs.Kept | index.js:55-58 | the kept events are drawn from the input and include none that is ignored; each non-ignored event occurs as often as in the input, each ignored one not at all |
| IndexJs.KeptAppend | index.js:55-58 | keeping distributes over concatenation, so kept events stay in arrival order |
| IndexJs.KeptSingle | index.js:56-57 | a single event is kept iff its name is not ignored |
| IndexJs.ProcessAllKeepsNonIgnored | index.js:55-58 | after any sequence of events, the events handed to `buffer.add` are those handed before followed by exactly the non-ignored events in arrival order (flushing by the buffer library is not modelled) |
| IndexJs.OnFlush | index.js:28-38 | bucket is the configured one; key starts with prefix + day + `/` and ends in `.jsonl`; body is the joined lines |
| IndexJs.OnFlushKeyLayout | index.js:30-36 | the key is prefix (or nothing) + day + `/` + the raw time part with its colons + `-` + 40 lower-case hex digits + `.jsonl`, with no compression extension |
| IndexJs.OnFlushBodyRoundTrip | index.js:37 | the body of a non-empty batch splits at `\n` into the serialized events in order, with n - 1 line feeds |
| IndexJs.OnFlushKeysDistinct | index.js:32-36 | two flushes at the same instant with different random bytes get different keys |
| IndexJs.ProcessEventAsWritten | index.js:55-59 | as written: the event is returned unchanged and buffered iff the object lookup of its name is falsy, so inherited `Object.prototype` names count as ignored; client, limits and ignore set never change |
| IndexJs.InheritedNameIsDropped | index.js:50-58 | with the default list, an event named `constructor` is dropped as written but buffered by the membership test |
| IndexJs.AsWrittenAgreesOffPrototype | index.js:50-56 | for every name outside `Object.prototype`, the lookup as written ignores it iff the membership test does |

## Findings

| source | as written | input that shows it | evidently intended | confidence | as-written member | corrected member |
|---|---|---|---|---|---|---|
| index.js:50-58 | `!global.eventsToIgnore[event.event]` looks the name up on a plain object made by `Object.fromEntries`, so names inherited from `Object.prototype` (`constructor`, `toString`, `valueOf`, `__proto__`, …) are truthy | `eventsToIgnore` unset, event named `constructor`: the object is `{"": true}`, the lookup yields the `Object` function, and the event is never buffered | an exact match against the listed names only | high; not executed | IndexJs.InheritedNameIsDropped | IndexJs.ProcessEvent |

`IndexJs.ProcessEventAsWritten` models the lookup as written.
`IndexJs.AsWrittenAgreesOffPrototype` shows that it agrees with the
membership test for every name outside `Object.prototype`. The rest of the
model uses the membership test.

## Left out

- The S3 upload (`S3.upload`, index.ts:66-75, index.js:40-47) and the mapping of its error to `RetryError` are network I/O. The model stops at the upload parameters.
- `gzipSync` and `brotliCompressSync` are foreign compressors. A compressed body records which compressor was applied. `Decompress` assumes each compressor has an inverse.
- When `createBuffer` (index.js:25) flushes is decided by a library outside this model. Only the limits passed to it and the appending in `processEvent` are modelled.
- The clock and the random source are parameters: `new Date().toISOString()` and `randomBytes`.
- `JSON.stringify` is a parameter. That each serialization is one line is a precondition of the round-trip lemmas, justified by JSON's escaping of control characters. `batch.map(JSON.stringify)` also passes an index and the array, which `JSON.stringify` ignores as replacer and indentation, so the same serializer is used.
- `Buffer.from(…, 'utf8')` is not modelled. Bodies are character sequences.
- Dafny characters are Unicode scalar values, not UTF-16 code units, so `split` and `trim` see surrogate pairs as single characters.
- Retry and backoff scheduling are not modelled. The test calls `sendBatchToS3` with `retriesPerformedSoFar`, but `sendBatchToS3` is not part of this model. Flush-on-shutdown is not modelled either.
- `console.log` output is not modelled.
- IndexTs.ExportEvents: requires the four required entries to be set, which holds because exports run only after `setupPlugin` succeeded. It also requires the timestamp to contain `T`, which every `toISOString` result does.
- IndexJs.OnFlush: has the same two preconditions. `onFlush` is created inside a successful `setupPlugin`.
- IndexJs.BufferLimit: uses unbounded integers. JavaScript numbers lose precision above 2^53, so very large megabyte or minute counts are not modelled. The same holds for IndexJs.TimeoutSeconds.
- ObjectKey.IsoSplitDate: covers years 0000 to 9999 only. `toISOString` writes other years as `±YYYYYY`. The same holds for IndexTs.IsoDayTime and IndexTs.IsoDayTimeHasNoColon.
- IndexJs.ProcessEvent: treats the event name as a string. An event with no `event` field would be looked up under the name `undefined`, and that case is not modelled.
