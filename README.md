# CartoDB SQL API — a verified model of its request core

The CartoDB SQL API is an HTTP gateway. It takes a SQL statement from a
request, runs it against the user's PostgreSQL database, and sends the result
back in the format the caller asked for. This project models three parts of
it in Dafny and proves their properties:

- **The request pipeline** (`app.dfy`, module `App`; from `app/controllers/app.js`). It covers:
  - the write-keyword heuristic `queryMayWrite`;
  - `sanitize_filename` and `window_sql`;
  - how `handleQuery` defaults its parameters and flattens `skipfields`;
  - the parse of the `{t1,t2}` table list, and the `pg_` system-table guard;
  - the `X-Cache-Channel` key (`generateCacheKey`);
  - `getContentDisposition`, and the status rules of `handleException`;
  - the process-wide table-extraction cache, with `handleCacheStatus`.

  The cache is a class holding a map from a statement fingerprint to an entry. `HandleQuery` runs the whole request as one straight sequence of steps. Its effect on the cache and on the pool (its counters and its log) is stated by two predicates over the values before and after: `ServedFrom` and `Handled`.
- **The connection wrapper** (`psql.dfy`, module `Psql`; from `app/models/psql.js`). It covers:
  - the constructor's check on its access parameters;
  - the connection string;
  - the `SET` sanitizer;
  - the lifecycle of `query` and `eventedQuery`: sanitize, then connect, then run, then release.

  The lifecycle runs over an abstract `Pool` object. The pool counts the clients acquired, released and held by a streaming query, and logs every action.
- **The binary columnar encoder front-end** (`binary.dfy`, module `Binary`; from `app/models/formats/binary.js`). It covers:
  - the type taken from a column-name suffix (`__int8`, `__uintclamp16`, …), modelled as the backtracking regular-expression match it is;
  - the typing of each column from its first-row value;
  - the transposition of rows into per-column blocks, nested under one `BUFFER` block.

  The serializer's type codes and its `typeNames` table are a parameter record.
- **JavaScript's text built-ins** (`js.dfy`, module `Js`), as the three files use them:
  - the `\s` class;
  - ASCII case folding for `/i` and `toLowerCase`;
  - `split`, `parseInt` and number-to-string;
  - how `null` prints in a concatenation.

The `PSQL` constructor throws only when *neither* `user_id` nor `db` is a
string (`app/models/psql.js:32`), and `NewConnection` states exactly that.

## Model

| member | source | states |
|---|---|---|
| Js.NullableText | app/models/psql.js:51-54 | a present value prints as itself; an absent one (`null`) prints as `"null"` |
| Js.Lower | app/controllers/app.js:120 | the lower-cased text has the same length, and each character is the ASCII lower case of the one it replaces |
| Js.TrimLeadingSpace | app/controllers/app.js:86 | the result is a suffix of the input; everything removed is `\s`; the result does not start with `\s` |
| Js.TrimmedAt | app/controllers/app.js:86 | when the first non-`\s` character is at index `k`, trimming leaves exactly `s[k..]` |
| Js.IndexOf | app/controllers/app.js:204 | the index is at most the length; the character there is the separator; no separator occurs before it |
| Js.Split | app/controllers/app.js:130 | `split` always yields at least one piece |
| Js.SplitPieces | app/controllers/app.js:204 | no piece of a split holds the separator |
| Js.SplitAppend | app/controllers/app.js:134 | splitting `a + sep + b` gives the pieces of `a` followed by the pieces of `b` |
| Js.JoinSplit | app/controllers/app.js:204 | joining the pieces of a split with the separator gives back the text |
| Js.SplitJoin | app/controllers/app.js:204 | splitting a join of separator-free pieces gives back the pieces |
| Js.SplitNoSeparator | app/controllers/app.js:130 | text without the separator splits into itself alone |
| Js.NatToString | app/controllers/app.js:87 | a number prints as one or more decimal digits, with no leading zero unless it is 0 |
| Js.IntToString | app/controllers/app.js:87 | a number prints as at least one character, starting with `-` exactly when it is negative |
| Js.DigitPrefix | app/controllers/app.js:102-103 | `parseInt` reads the longest prefix of digits of the radix |
| Js.ParseIntParam | app/controllers/app.js:102-103 | an absent parameter parses to `NaN` |
| Js.ParseInt | app/controllers/app.js:102-103 | `parseInt` without a radix (no contract of its own); `ParseIntString` and `ParseIntNaN` state its meaning |
| Js.ParseIntNaN | app/controllers/app.js:102-103 | text that opens, after leading white space, with neither a sign nor a digit parses to `NaN` |
| Js.ParseIntString | app/controllers/app.js:102-103 | `parseInt` reads back every integer the way JavaScript prints it |
| Js.NatToStringValue | app/controllers/app.js:87 | the printed digits of `n` denote `n` |
| Psql.ConString | app/models/psql.js:51-54 | the connection string is `tcp://` + user + `@` + host + `:` + port + `/` + database, and opens with the user id |
| Psql.NewConnection | app/models/psql.js:29-54 | construction fails, with the access-parameters message, exactly when neither the user id nor the database is given; otherwise it keeps both and its connection string |
| Psql.Sanitize | app/models/psql.js:116-125 | the 403 "SET command is forbidden" error is returned exactly when the statement starts with `\s+set\s` (any case); everything else passes |
| Psql.IsLeadingSet | app/models/psql.js:118 | the executable match of `^\s+set\s+` (no contract of its own); `IsLeadingSetExact` proves its declarative reading |
| Psql.IsLeadingSetExact | app/models/psql.js:118 | the executable match of `^\s+set\s+` agrees with its declarative reading: at least one `\s`, then `set`, then `\s` |
| Psql.LeadingSetFound | app/models/psql.js:118 | a match starts `set` right after the run of leading white space |
| Psql.LeadingSetMatched | app/models/psql.js:118 | any white space, then `set` and `\s`, is a match |
| Psql.UnindentedPasses | app/models/psql.js:118 | a statement that does not start with white space (an unindented `SET …` included) passes |
| Psql.IndentedSetRefused | app/models/psql.js:118-121 | white space, then `set` in any case, then white space, is refused with the 403 error |
| Psql.Pool.constructor | app/models/psql.js:8 | a fresh pool has no clients and an empty log |
| Psql.Pool.Acquire | app/models/psql.js:92 | `pg.connect` takes one more client and logs it; the balance acquired = released + in use is kept |
| Psql.Pool.Run | app/models/psql.js:97 | running a statement logs it and leaves the counters alone |
| Psql.Pool.Release | app/models/psql.js:106 | `done()` gives one client back and logs it, keeping the balance |
| Psql.Query | app/models/psql.js:82-111 | a refused statement gets the sanitizer's error and never touches the pool; a connect error is passed on, and the pool is untouched; otherwise the pool sees exactly acquire, run, release(false), and the database's answer (result or error) reaches the caller unchanged |
| Psql.ConnectAndRun | app/models/psql.js:90-109 | after a clean sanitize: connect, run, release exactly once if a client was taken (the `finish` flag), then the answer is passed on |
| Psql.EventedQuery | app/models/psql.js:56-80 | sanitize first; on success the client is acquired, the statement runs, and the client stays held by a streaming query |
| Psql.ConnectAndStart | app/models/psql.js:63-75 | after a clean sanitize: connect, start the query, and keep the client until its `end` event |
| Psql.EndEvent | app/models/psql.js:73 | the query's `end` event gives its client back, exactly once |
| Binary.FormatId | app/models/formats/binary.js:8 | the format id is `bin` |
| Binary.GetQuery | app/models/formats/binary.js:10-12 | the statement is sent unchanged |
| Binary.ContentType | app/models/formats/binary.js:14-16 | the content type is `application/octet-stream` |
| Binary.FileExtension | app/models/formats/binary.js:18-20 | the extension is the id, `bin` |
| Binary.ExtractTypeFromName | app/models/formats/binary.js:22-28 | a type is only ever one of `typeNames`' values, and there is none when the name does not match |
| Binary.FirstAlternativeSpec | app/models/formats/binary.js:23 | the alternation tries `(uintclamp\|uint\|int\|float)(8\|16\|32)` in order: the first that matches is captured, and none is captured when none matches |
| Binary.BacktrackSpec | app/models/formats/binary.js:23 | backtracking `.*` finds a candidate when and only when one exists in the range |
| Binary.SearchSpec | app/models/formats/binary.js:23 | the search from `s` on captures the type at some `__` position, or there is none at any position |
| Binary.CapturedTypeName | app/models/formats/binary.js:23 | the match of the suffix pattern from position 0 (no contract of its own); `CapturedTypeNameExists` and `LastSuffixWins` state its meaning |
| Binary.TypeAtSpec | app/models/formats/binary.js:23 | what is captured after `__` is, lower-cased, one of the twelve type names |
| Binary.CapturedTypeNameExists | app/models/formats/binary.js:23-25 | the name matches exactly when a `__type` suffix occurs somewhere in it, and then the captured kind and width form one of the twelve type names |
| Binary.LastSuffixWins | app/models/formats/binary.js:23 | on a one-line name the greedy `.*` makes the last `__type` occurrence win |
| Binary.LineEndOfOneLine | app/models/formats/binary.js:23 | `.` runs to the end of a name that has no line terminator |
| Binary.BacktrackFindsLast | app/models/formats/binary.js:23 | backtracking from the end finds the last candidate |
| Binary.Get | app/models/formats/binary.js:64 | a missing column reads as `undefined` |
| Binary.NameTypeOr | app/models/formats/binary.js:49-54 | the name's type when it has one, `FLOAT32` otherwise; a code of a well-formed table never exceeds `BUFFER` |
| Binary.HeaderType | app/models/formats/binary.js:46-55 | a string value gives `STRING`; an object gives `BUFFER` + (name type or `FLOAT32`); any other value gives the name type or `FLOAT32` |
| Binary.HeaderTypes | app/models/formats/binary.js:43-56 | one type per first-row key, in key order, each from that key's first-row value |
| Binary.Columns | app/models/formats/binary.js:60-72 | one block per column, in key order, each typed by the column's header type |
| Binary.ColumnTypes | app/models/formats/binary.js:40-56 | the header-typing loop computes exactly the header types |
| Binary.ColumnCells | app/models/formats/binary.js:61-69 | the inner loop collects the column's cells of the first `total` rows, in row order; it fails when there are fewer rows than that |
| Binary.Encode | app/models/formats/binary.js:30-82 | what `transform` produces (no contract of its own); `EmptyResult`, `EncodeShape`, `EncodeTransposes` and `Transform` state its meaning |
| Binary.Transform | app/models/formats/binary.js:30-82 | the nested loops emit exactly the encoding: an empty buffer for zero rows, otherwise the `BUFFER` block |
| Binary.EmptyResult | app/models/formats/binary.js:35-38 | a row count of zero gives an empty buffer |
| Binary.EncodeShape | app/models/formats/binary.js:58-74 | the output is one `BUFFER` block with 1 + ncols children: first the `STRING` block of the keys, then one block per column of that column's type holding `total_rows` cells |
| Binary.ColumnShape | app/models/formats/binary.js:60-71 | column `i` is a block of its header type holding `total` cells |
| Binary.HeaderBlockNames | app/models/formats/binary.js:58 | the header block is a `STRING` block of the first row's keys, in order |
| Binary.EncodeTransposes | app/models/formats/binary.js:63-69 | column `i` has the header type of its first-row value; cell `r` of it is row `r`'s value of that column, wrapped as `Cell` says for that type: in a block of the element type in array columns, raw otherwise (`ColumnTyping` gives the two cases) |
| Binary.ColumnTyping | app/models/formats/binary.js:43-68 | a column is an array column (type above `BUFFER`) exactly when its first value is an object that is not a string |
| Binary.DefaultsToFloat32 | app/models/formats/binary.js:49-54 | with no type suffix, plain values are `FLOAT32` and objects are `BUFFER` + `FLOAT32` |
| App.KeywordAtExact | app/controllers/app.js:66 | the alternation matches at `i` exactly when one of the keywords occurs there, in any case |
| App.MayWriteFromExact | app/controllers/app.js:66-67 | the unanchored search from `i` succeeds exactly when a keyword occurs at some index from `i` on |
| App.QueryMayWriteExact | app/controllers/app.js:64-71 | `queryMayWrite` holds exactly when the statement contains alter, insert, update, delete, create, drop or truncate, in any case, as a plain substring |
| App.CreatedAtCountsAsWrite | app/controllers/app.js:58-67 | the check is fuzzy: a read that mentions the column `created_at` counts as a write |
| App.ReplaceUnsafe | app/controllers/app.js:75 | the replacement keeps the length and turns each of `; ( ) [ ] < > ' "` and white space into `_`, leaving other characters alone |
| App.ReplaceUnsafeIsSafe | app/controllers/app.js:75 | the replaced name holds none of the unsafe characters |
| App.ReplaceUnsafeIdempotent | app/controllers/app.js:75 | replacing twice is replacing once |
| App.LastSegment | app/controllers/app.js:74 | the base name is a suffix of the path with no `/` in it, and when it is shorter than the path the character before it is `/`: it is everything after the last `/` |
| App.LastDot | app/controllers/app.js:74 | the last dot, if there is one |
| App.StripExtension | app/controllers/app.js:74 | the name is cut just before its last `.`, unless it has none or the dot is its first character, in which case it is kept whole |
| App.SanitizeFilename | app/controllers/app.js:73-78 | a sanitized file name is the base name without its extension, with the unsafe characters replaced; it has no unsafe characters and no `/` |
| App.LooksLikeSelectExact | app/controllers/app.js:86 | the executable match of `^\s*SELECT\s` (any case) agrees with its declarative reading |
| App.SelectFound | app/controllers/app.js:86 | a match puts `select` right after the leading white space |
| App.SelectMatched | app/controllers/app.js:86 | any white space, then `select` and `\s`, is a match |
| App.WindowTail | app/controllers/app.js:87 | the tail is `) AS cdbq_1 LIMIT <l> OFFSET <o>` |
| App.WindowSql | app/controllers/app.js:84-90 | when limit and offset are both numbers and the statement is a SELECT, it becomes `SELECT * FROM (` + sql + `) AS cdbq_1 LIMIT l OFFSET o`; otherwise it is returned unchanged |
| App.WindowedKeepsStatement | app/controllers/app.js:86-87 | the windowed statement contains the original one verbatim, and is itself a SELECT |
| App.SelectLeaderLooksLikeSelect | app/controllers/app.js:86-87 | text opening with the window head `SELECT * FROM (` matches the SELECT pattern |
| App.OtherLeadersNotWindowed | app/controllers/app.js:85-89 | a statement that starts with anything but white space or `s`/`S` (such as `VALUES` or `WITH`) is never windowed |
| App.Either | app/controllers/app.js:98-99 | `query || body`: the query-string value when it is truthy, else the body's |
| App.EitherText | app/controllers/app.js:106 | the same for a string-valued parameter |
| App.NullIfEmpty | app/controllers/app.js:122-124 | an empty or absent value becomes `null`; any other is kept |
| App.PickedFormat | app/controllers/app.js:104-105 | for a repeated `format`, the last value wins |
| App.FormatName | app/controllers/app.js:120 | an empty or absent format becomes `json`; any other is lower-cased |
| App.FilenameOf | app/controllers/app.js:121 | with no file name (absent or empty, in the query string and the body), the name is `cartodb-query`; otherwise it is the sanitized given name, the query string's winning |
| App.SqlOf | app/controllers/app.js:122 | there is a statement exactly when `q` (from the query string, else the body) is a non-empty string, and then it is that string |
| App.DpOf | app/controllers/app.js:119 | `dp` defaults to `"6"`; a given value is kept |
| App.OffsetOf | app/controllers/app.js:125-126 | the offset is a number exactly when `page` parses, and is then page × rows_per_page (a missing limit, `null`, multiplies as 0) |
| App.SplitAllPieces | app/controllers/app.js:131-135 | no flattened field name holds a comma |
| App.SplitAllJoined | app/controllers/app.js:131-135 | flattening a repeated parameter gives the same fields as splitting its values joined with commas |
| App.SkipfieldsOf | app/controllers/app.js:128-139 | an absent `skipfields` gives `[]` |
| App.Normalized | app/controllers/app.js:116-145 | an unknown format throws `Invalid format: <f>` before a missing statement throws `You must indicate a sql query`; a known format with a statement always succeeds; on success every parameter has its default: format, file name, `dp`, limit, offset, `skipfields`, inline, an empty database or user id made `null`, and `persist` exactly when `cache_policy` is `persist` |
| App.NormalizeInput | app/controllers/app.js:119-145 | the defaulting steps compute exactly the normalised parameters, or the error thrown first |
| App.CollectSkipfields | app/controllers/app.js:128-139 | a string is split on `,`; a repeated parameter is the in-order concatenation of its values' splits; an absent value gives `[]` |
| App.TableList | app/controllers/app.js:204 | `split(/^\{(.*)\}$/)[1]` is the text between the braces when they wrap the whole one-line text, and `undefined` otherwise |
| App.SystemTableError | app/controllers/app.js:203-213 | with no cache entry the guard does not run |
| App.CheckSystemTables | app/controllers/app.js:203-213 | the loop over the listed tables gives exactly the guard's verdict: the first name containing `pg_` throws the 403 |
| App.JoinNoLineTerminator | app/controllers/app.js:204 | joining one-line names with commas stays on one line |
| App.TableListOf | app/controllers/app.js:204 | `{inner}` lists `inner` when it is on one line |
| App.SystemTableErrorOfList | app/controllers/app.js:203-211 | for a list `{t1,…,tn}`, the request is refused with 403 "system tables are forbidden" exactly when some name contains `pg_`, whatever the others are |
| App.NoTablesPass | app/controllers/app.js:203-213 | the empty list `{}` passes the guard |
| App.GenerateCacheKey | app/controllers/app.js:309-315 | the channel is `NONE` exactly when there is no entry, or the caller is authenticated and the statement may write; otherwise it is database + `:` + the table list |
| App.CacheKeyOfNoTables | app/controllers/app.js:313 | `{}` gives the channel `db:` |
| App.CacheKeyOfTables | app/controllers/app.js:313 | `{inner}` gives `db:inner` to an anonymous caller, even for a write |
| App.Extension | app/controllers/app.js:281-299 | geojson, topojson, csv, svg and kml keep their names; `shp` becomes `zip`; anything else is `json` |
| App.SavedName | app/controllers/app.js:301 | the saved name is the file name, a dot and the extension |
| App.DispositionParams | app/controllers/app.js:301 | the parameters are `; filename=`, the saved name, then `; modification-date="<time>";` |
| App.ContentDisposition | app/controllers/app.js:280-302 | the disposition is `inline` or `attachment`, as asked, followed by the file-name and date parameters |
| App.BinaryFilesNamedJson | app/controllers/app.js:281-299 | the extension map does not know `bin`, so binary downloads are named `.json` |
| App.HandleException | app/controllers/app.js:324-345 | the status is the error's `http_status` if defined, else 400; the disposition is always `inline`; the body carries the message |
| App.TotalHitsRemove | app/controllers/app.js:273 | the sum of hits does not depend on the order the entries are taken in |
| App.HitAddsOne | app/controllers/app.js:176 | a hit raises the total by exactly one |
| App.InsertAddsEntry | app/controllers/app.js:188-196 | an insertion adds one key and the new entry's hits |
| App.QueryMayWrite | app/controllers/app.js:64-71 | the executable search of the keyword alternation (no contract of its own); `QueryMayWriteExact` proves it means "contains a write keyword, in any case" |
| App.LooksLikeSelect | app/controllers/app.js:86 | the executable match of `^\s*SELECT\s` (no contract of its own); `LooksLikeSelectExact` proves its declarative reading |
| App.RequestedFormat | app/controllers/app.js:104 | `req.query.format \|\| body.format` (no contract of its own); `InlineMeansDefaults` and `PickedFormat` state its meaning |
| App.LimitOf | app/controllers/app.js:102 | `parseInt(rows_per_page)` (no contract of its own); `LimitOfRendered` states its meaning |
| App.LimitOfRendered | app/controllers/app.js:102 | an absent `rows_per_page` gives no limit; `rows_per_page` written as the number `n` gives the limit `n` |
| App.OffsetOfRendered | app/controllers/app.js:125-126 | with `rows_per_page` and `page` written as the numbers `n` and `k`, the limit is `n` and the offset `k * n` |
| App.SplitAll | app/controllers/app.js:131-135 | the flattening of a repeated `skipfields` (no contract of its own); `SplitAllPieces` and `SplitAllJoined` state its meaning |
| App.InlineOf | app/controllers/app.js:221 | `!requestedFormat && !requestedFilename` (no contract of its own); `InlineMeansDefaults` states its meaning |
| App.InlineMeansDefaults | app/controllers/app.js:221 | the response is inline exactly when neither the query string nor the body gives a format or a file name, and then it is JSON named `cartodb-query` |
| App.MentionsPg | app/controllers/app.js:207 | `t.match(/\.?pg_/)` read as "contains `pg_`" (no contract of its own); `SystemTableErrorOfList` states its use |
| App.TotalHits | app/controllers/app.js:273 | the sum of the hit counters (no contract of its own); `TotalHitsRemove`, `HitAddsOne` and `TableCache.Status` state its meaning |
| App.PlanFor | app/controllers/app.js:221-246 | the headers and statement a served request goes out with (no contract of its own); `PlanHeaders` states its meaning |
| App.PlanHeaders | app/controllers/app.js:221-246 | the plan keeps the parameters; its disposition starts `inline` exactly as asked and `attachment` otherwise; the channel is `NONE` exactly when the tables are unknown or an authenticated caller may write; `persist` gives a year in the cache and no `Last-Modified`, otherwise the one-hour policy and the request's time; the statement is unchanged unless it is a SELECT with a limit and an offset |
| App.TableCache.constructor | app/controllers/app.js:41-46 | the cache starts empty |
| App.TableCache.Get | app/controllers/app.js:174-177 | a hit raises that entry's `hits` by exactly 1 and changes no other entry; a miss changes nothing |
| App.TableCache.RecordExtraction | app/controllers/app.js:186-200 | after a miss, exactly one row inserts `{affected_tables, may_write: queryMayWrite(sql), hits: 1}`; any other row count inserts nothing |
| App.TableCache.Status | app/controllers/app.js:271-276 | `hits` is the sum over the entries and `keys` is their number; hits ≥ keys |
| App.ExtractionSql | app/controllers/app.js:179 | the extraction statement dollar-quotes the SQL, and the SET sanitizer never refuses it |
| App.EntryFor | app/controllers/app.js:174 | there is an entry exactly when the key is cached |
| App.LookupTables | app/controllers/app.js:173-201 | a hit counts one hit and leaves the pool (counters and log) as it was; a miss runs the extraction through `query`: with a connect error nothing changes, otherwise one client is acquired and released and the log gains acquire, run, release, with the clients in use and streaming unchanged; one row is cached, an error caches nothing |
| App.ServedFrom | app/controllers/app.js:173-246 | the specification of steps 2 to 5 over the cache and the pool state (counters and log) before and after (no contract of its own) |
| App.ServeRequest | app/controllers/app.js:173-246 | a hit counts one hit and leaves the pool as it was; a miss with a connect error fails, and the cache and the pool are as they were; otherwise the pool has acquired and released one more client, with the clients in use and streaming unchanged, and the log gains exactly acquire, run of the extraction, release; on an extraction error nothing is cached; a one-row answer is cached with one hit, any other count caches nothing; once the lookup has succeeded, a system table in the entry gives the 403 and otherwise the request is served with `PlanFor`; a served request passed the guard |
| App.Handled | app/controllers/app.js:93-269 | the specification of the whole request over the cache and the pool state (counters and log) before and after (no contract of its own) |
| App.Respond | app/controllers/app.js:93-269 | on the normalised parameters: an error fails, and the cache and the pool (counters and log) are as they were; a failed construction fails the same way; otherwise `ServedFrom` holds |
| App.HandleQuery | app/controllers/app.js:93-269 | `Handled` holds of the new cache entries and pool state for the normalised parameters: bad input and missing access parameters fail, and the cache and the pool (counters and log) are as they were; a hit counts one hit and leaves the pool alone; a miss takes one client and gives it back, logs the extraction and caches a one-row answer, so no connection is left held; whenever the lookup succeeds and the entry it yields names no system table, the request is served with `PlanFor`, and only then |

## Left out

- Express routing is not modelled, because it is HTTP plumbing. This covers `res.header`/`res.send`, the CORS headers (`setCrossDomain`), the OPTIONS route and `Step`'s callback chaining. `HandleQuery` runs the steps in sequence and returns what would be sent.
- The `pg` driver is not modelled. Its pool size, idle timeout, reaping and `pg.on('error')` (`app/models/psql.js:8-20`) are outside the model. `Pool` records only acquire, run and release. The answers of the pool and the database are parameters (`connectError`, `answer`, `extraction`).
- MD5 (`generateMD5`) is not modelled, because it is a library hash. The key is an arbitrary function `fingerprint` given to `HandleQuery`.
- The LRU cache's capacity, expiry and eviction are not modelled, because they depend on time and on library code. The cache keeps every entry it is given.
- The clock is not modelled: `new Date().toUTCString()` is the `now` parameter.
- The serializer's byte layout (`bin_encoder`) is not modelled, because that source is not part of this model. A block is `Block(typeCode, items)`, and the output is that block value, not bytes.
- The other output formats are not modelled (geojson, csv, shp, kml, topojson, svg, json). The formats registry (`app/models/formats`) is a set of known names.
- The formatter's `sendResponse` is not modelled. `HandleQuery` stops at the plan it would hand the formatter.
- The `Content-Type` header is not modelled as part of the plan: it comes from the chosen formatter's `getContentType()` (`app/controllers/app.js:223`), and the other formatters are outside the model. The binary formatter's own content type is `Binary.ContentType`.
- Export coalescing, metadata lookups, OAuth, API keys (`api_key`) and console logging are not modelled.
- `path.basename`/`path.extname` are simplified to "the last `/`-segment, minus its last `.`-extension". Two of Node's cases differ: `..` keeps its name in Node but becomes `.` here, and a trailing slash is ignored by Node but gives an empty base name here.
- JavaScript numbers are unbounded integers here. Double-precision rounding, `Infinity`, and the exponent form of large numbers when printed are not modelled.
- Case folding is ASCII only, matching what `/i` does for these ASCII patterns. `toLowerCase` of non-ASCII letters in a format name is not modelled.
- Of the repeated (array-valued) parameters, only `q`, `format` and `skipfields` are handled as the source does. A repeated `q` is not a string, so it is refused with the missing-statement error. Other parameters are modelled as single strings.
- The development-mode `stack` in error bodies, and the `pid` in the cache-status answer, are not modelled.
- `eventedQuery`'s error after the query has started is not modelled. This is the query object's `error` event, which the source does not handle.
- Binary.ExtractTypeFromName: its contract says that the type is one of `typeNames`' values and that there is none when nothing matches. It does not name which value. The exact capture is stated by `CapturedTypeNameExists` and `LastSuffixWins`. The lookup itself is a map read on the abstract `typeNames`.
- The file-tag/version buffer `res` in `transform` (`app/models/formats/binary.js:77-79`) is allocated but never used, so the model has no counterpart and emits the top block alone.
- Binary.RowsMissingMessage: the text "TypeError: a row of the result is undefined" is a placeholder. The source has no message of its own there: reading a row that is not there throws the engine's `TypeError`, whose wording the model does not reproduce.
- A missing user id or database is printed as `null` in the connection string and the cache channel, as concatenation does in JavaScript.
