# Serverless boilerplate core, modelled in Dafny

This project models the request-handling and data-access core of a Go
serverless boilerplate: an AWS Lambda behind API Gateway, backed by
DynamoDB. It covers four parts of that core.

- **Batch access to the table** (`pkg/internal/db/tables/test.go`):
  - `BatchGetItems` splits the keys into chunks of 100. `BatchWriteItems`
    splits the items into chunks of 25.
  - Each chunk is handled by a goroutine. It marshals every element, then
    makes one store call, and reports failures on a buffered error channel.
  - When all goroutines are done, the channel is closed and its errors are
    folded into one Go error chain (`"%w; %v"`).
  - `QueryItems` checks its keys before querying the store: the list must be
    non-empty and every key map must have a partition key `"pk"`.
- **The router** (`pkg/lambdas/router.go`):
  - It strips the API Gateway stage prefix from the request path.
  - It compiles each route template (`/hello/{goodId}`) into an anchored
    pattern. Placeholders match runs of characters other than `/`.
  - The first matching route wins. Its named captures are written into the
    request's path-parameter map.
  - It answers 404 when no route matches and 405 when the route has no entry
    for the HTTP method. Otherwise it returns the callback's response.
- **Response preparation** (`pkg/utils/response.go`):
  - `PrepareResponse` defaults the `Content-Type` header to JSON and
    marshals the body. If marshalling fails, it answers 500 with a fixed
    body.
  - The `Responses` table holds canned `{"message": ...}` bodies.
- **`StructToMap`** (`pkg/utils/lib.go`): it turns a struct's non-zero
  fields into a map keyed by their `json` tag, or by the field name when
  there is no tag.

Modules, one per component:

| module | file | models |
|---|---|---|
| `Wrappers` | `wrappers.dfy` | `Option` and `Result` |
| `Text` | `text.dfy` | Go's `strings.TrimSuffix`, `strings.Split` and `strings.Join`, with their round trips |
| `Chunking` | `chunking.dfy` | the `for i := 0; i < n; i += limit` chunk loop |
| `ErrorChain` | `errorchain.dfy` | Go error wrapping; the buffered error channel as a class; the drain-and-fold loop |
| `FanOut` | `fanout.dfy` | the order in which goroutines finish, as a permutation of chunk indices |
| `Batch` | `batch.dfy` | `BatchGetItems`, `BatchWriteItems` and `QueryItems` |
| `Http` | `response.dfy` | `PrepareResponse` and `Responses`; a Go `map[string]string` as a mutable `StringMap` object |
| `Router` | `router.dfy` | `Router` |
| `StructFields` | `structmap.dfy` | `StructToMap` |

**Concurrency.** The goroutines are modelled as a sequential loop over the
chunks, taken in an `order` argument. That argument must be a permutation of
the chunk indices, and it stands for the order in which the goroutines
finish.

- The records and errors are stated exactly, in that order.
- Lemmas then give what holds for every order:
  - the same multiset of records;
  - a nil error exactly when every chunk succeeded;
  - a single failing chunk's error returned as it is.

**Capacity of the error channel.** The channel is a class whose `Send`
requires free capacity. So "no goroutine ever blocks on a full channel" is
proved:

- `len(keys)` slots suffice for the reads;
- `len(chunks)` slots suffice for the writes.

**Parameters standing for external code.** The store calls,
`dynamodbattribute.MarshalMap`, `json.Marshal` and `json.Unmarshal` are
function parameters. The store requests a batch operation makes are returned
as a ghost trace.

## Model

| member | source | states |
|---|---|---|
| `Text.TrimSuffix` | pkg/lambdas/router.go:34 | when `s` ends with the suffix, the result plus the suffix is `s`; otherwise the result is `s` unchanged |
| `Text.JoinSplit` | pkg/lambdas/router.go:35-39 | joining the parts of a split with the same separator gives the string back |
| `Text.SplitJoin` | pkg/lambdas/router.go:35-39 | splitting a join of separator-free parts gives the parts back |
| `Text.SplitCount` | pkg/lambdas/router.go:36 | a split has one more part than the string has separators |
| `Text.JoinSplitFrom` | pkg/lambdas/router.go:37-39 | joining the parts from the k-th on gives the text after the k-th separator |
| `Chunking.ChunksCount` | pkg/internal/db/tables/test.go:124-130 | `n` items make exactly ceil(n / limit) chunks, so no input makes no chunk |
| `Chunking.FlattenChunks` | pkg/internal/db/tables/test.go:124-130 | the chunks, concatenated in order, are the input: nothing dropped, duplicated or reordered |
| `Chunking.ChunkAt` | pkg/internal/db/tables/test.go:125-130 | chunk k is `items[k*limit : min(k*limit+limit, n)]`; it is non-empty and at most `limit` long, and every chunk but the last is full |
| `Chunking.ChunksAtMost` | pkg/internal/db/tables/test.go:122 | there are never more chunks than items |
| `Chunking.Split` | pkg/internal/db/tables/test.go:178-186 | the loop builds exactly the chunk sequence, ceil(n / limit) of them, whose concatenation is the input |
| `ErrorChain.ChainNilIff` | pkg/internal/db/tables/test.go:159-166 | the folded error is nil exactly when no error was received |
| `ErrorChain.ChainMessage` | pkg/internal/db/tables/test.go:164 | the folded error's message is every received message, in receive order, joined by "; " |
| `ErrorChain.ChainWrapsFirst` | pkg/internal/db/tables/test.go:164 | the first error received stays in the chain: unwrapping once per later error reaches it, and `errors.Is` finds it |
| `ErrorChain.ErrorChannel.constructor` | pkg/internal/db/tables/test.go:122 | a new channel is open, empty, and has the given capacity |
| `ErrorChain.ErrorChannel.Send` | pkg/internal/db/tables/test.go:140 | a send needs a free slot on an open channel and appends the error |
| `ErrorChain.ErrorChannel.Close` | pkg/internal/db/tables/test.go:157 | closing keeps the buffered errors |
| `ErrorChain.ErrorChannel.Receive` | pkg/internal/db/tables/test.go:160 | a receive on a closed channel yields the oldest buffered error, or nothing once the channel is empty |
| `ErrorChain.Drain` | pkg/internal/db/tables/test.go:157-166 | closing and ranging over the channel yields the fold of all buffered errors in FIFO order |
| `FanOut.ScheduleFacts` | pkg/internal/db/tables/test.go:131-156 | a completion order runs every chunk exactly once |
| `FanOut.GatherPermutation` | pkg/internal/db/tables/test.go:152 | two completion orders give the same multiset of gathered elements |
| `FanOut.GatherIndices` | pkg/internal/db/tables/test.go:152 | finishing in chunk order gathers the plain concatenation |
| `FanOut.ScheduledGather` | pkg/internal/db/tables/test.go:152 | in any completion order, the gathered elements are, as a multiset, those of all chunks |
| `FanOut.GatherEmptyIff` | pkg/internal/db/tables/test.go:159-166 | nothing is gathered exactly when every chunk contributes nothing |
| `FanOut.GatherAtMostOne` | pkg/internal/db/tables/test.go:140-149 | when each chunk sends at most one error, there are at most as many errors as chunks |
| `Batch.MarshalAllSpec` | pkg/internal/db/tables/test.go:136-144 | a chunk marshals exactly when every element does; slot j then holds element j's wire form; otherwise the chunk fails with the first failing element's error |
| `Batch.MarshalAllFirstFailure` | pkg/internal/db/tables/test.go:137-142 | the first element that fails to marshal decides the chunk's error |
| `Batch.MarshalChunk` | pkg/internal/db/tables/test.go:136-144 | the slot-filling loop computes the chunk's marshal outcome |
| `Batch.ReadChunk` | pkg/internal/db/tables/test.go:133-153 | a read goroutine sends at most its one error and returns its chunk's records; the store sees the whole marshalled chunk or nothing |
| `Batch.WriteChunk` | pkg/internal/db/tables/test.go:194-211 | a write goroutine sends at most its one error, and the store sees the whole marshalled chunk or nothing |
| `Batch.BatchGetItems` | pkg/internal/db/tables/test.go:116-169 | the results are every chunk's records, and the error is the fold of every chunk's error, both in completion order; the channel of `len(keys)` slots never overflows; no keys give no result, no error and no store call |
| `Batch.BatchWriteItems` | pkg/internal/db/tables/test.go:171-227 | the error is the fold of every chunk's error in completion order; the channel of `len(chunks)` slots never overflows; no items give no error and no store call |
| `Batch.ReadNilIff` | pkg/internal/db/tables/test.go:159-168 | the read's error is nil exactly when every chunk marshalled and was read |
| `Batch.WriteNilIff` | pkg/internal/db/tables/test.go:217-226 | the write's error is nil exactly when every chunk marshalled and was written |
| `Batch.ReadUpToOrder` | pkg/internal/db/tables/test.go:152 | in any completion order, the records are the multiset of all chunks' records, and there is at most one error per chunk |
| `Batch.ReadSingleFailure` | pkg/internal/db/tables/test.go:146-150 | when exactly one chunk fails, its error is returned unwrapped, and every other chunk's records are in the result |
| `Batch.WriteSingleFailure` | pkg/internal/db/tables/test.go:208-210 | when exactly one chunk fails, its error is returned unwrapped |
| `Batch.StoreCallsAreWholeChunks` | pkg/internal/db/tables/test.go:146 | every chunk that marshals is submitted to the store, and every submission is a whole marshalled chunk |
| `Batch.WriteThirtyItems` | pkg/internal/db/tables/test.go:174-186 | 30 items are written as chunks of 25 and 5 |
| `Batch.ReadTwoHundredFiftyKeys` | pkg/internal/db/tables/test.go:118-130 | 250 keys are read as chunks of 100, 100 and 50 |
| `Batch.QueryItems` | pkg/internal/db/tables/test.go:78-108 | no keys give "no keys provided"; a key map without "pk" gives "missing required key: pk"; in both cases the store is not queried; otherwise the store's result or error is returned |
| `Http.StringMap.constructor` | pkg/utils/response.go:47 | `make(map[string]string)` is a new empty map |
| `Http.ResponsesAreReasonPhrases` | pkg/utils/response.go:9-43 | the table has exactly the 11 codes, each with `{"message": <its reason phrase in RFC 9110, section 15>}` |
| `Http.WithDefaultContentType` | pkg/utils/response.go:50-52 | `Content-Type` is set to "application/json" when missing or empty and kept otherwise; no other header changes |
| `Http.DefaultContentTypeIdempotent` | pkg/utils/response.go:50-52 | defaulting the header twice is defaulting it once |
| `Http.PrepareResponse` | pkg/utils/response.go:45-65 | a nil header map is replaced by a fresh one; a caller's map is completed in place and returned; status and body are the given status and the JSON text, or 500 and the fixed body when marshalling fails |
| `Router.NormalizePath` | pkg/lambdas/router.go:34-40 | the normalised path always starts with '/' |
| `Router.NormalizeKeepsTail` | pkg/lambdas/router.go:34-40 | the normalised path is "/" plus the text after the fourth '/' when there are at least four, else the text after the first |
| `Router.NormalizeTrailingSlash` | pkg/lambdas/router.go:34 | a path with one trailing '/' normalises like the path without it |
| `Router.NormalizeExample` | pkg/lambdas/router.go:60-62 | "/api/v1/test/hello/123" normalises to "/hello/123" |
| `Router.Compile` | pkg/lambdas/router.go:52 | compiling a template loses nothing: rendering the pieces gives the template back |
| `Router.CompilePlaceholder` | pkg/lambdas/router.go:52 | a '{', a name without '}', and the first '}' after it become one named placeholder, and compiling goes on after it |
| `Router.CompileLiteral` | pkg/lambdas/router.go:52 | any other character, including a '{' with no '}' after it, stays a literal |
| `Router.CompileWellFormed` | pkg/lambdas/router.go:52 | every compiled template is well formed: names have no '}', and no '}' follows a literal '{' |
| `Router.CompileRender` | pkg/lambdas/router.go:52 | compiling the text of well-formed pieces gives those pieces back, so `Compile` is the only well-formed inverse of rendering |
| `Router.CompileNames` | pkg/lambdas/router.go:52 | placeholder names, `[^}]*`, never contain '}' |
| `Router.RoutePatternTrailingSlash` | pkg/lambdas/router.go:50 | templates "/x/" and "/x" give the same pattern |
| `Router.Match` | pkg/lambdas/router.go:52-54 | a match has one capture per placeholder |
| `Router.MatchSound` | pkg/lambdas/router.go:52-54 | a match fills every placeholder with '/'-free text that rebuilds the path exactly |
| `Router.MatchComplete` | pkg/lambdas/router.go:52-54 | a path that is the template with '/'-free text in each placeholder is matched |
| `Router.MatchIff` | pkg/lambdas/router.go:52-54 | a template matches a path exactly when some '/'-free fill of its placeholders gives the path |
| `Router.FirstMatch` | pkg/lambdas/router.go:49-71 | the route selected matches the path, no earlier route does, and no route is selected only when none matches |
| `Router.SearchRoutes` | pkg/lambdas/router.go:46-71 | the loop stops at the first route whose pattern matches and returns its configuration; it writes exactly that route's named captures into the parameter map, and with no match it reports none and leaves the map untouched |
| `Router.FirstSomeFromSpec` | pkg/lambdas/router.go:49-71 | the search from a position stops at the first matching route at or after it, with its captures, and finds nothing only when no later route matches |
| `Router.WriteParamsKeeps` | pkg/lambdas/router.go:63-67 | keys that are no placeholder name keep their entries and nothing is added under them |
| `Router.WriteParamsLast` | pkg/lambdas/router.go:63-67 | each named placeholder maps to the capture of its last occurrence |
| `Router.WriteCaptures` | pkg/lambdas/router.go:63-67 | the loop writes the named captures into the caller's map, in group order, skipping unnamed groups |
| `Router.Router` | pkg/lambdas/router.go:29-83 | 404 with a JSON header when no route matches, and the parameters untouched; 405 when the route lacks the method; otherwise the callback's response on the updated parameters, with the query parameters and the decoded body; the first matching route's captures are written into the request's parameter map |
| `StructFields.Key` | pkg/utils/lib.go:19-25 | an untagged field uses its name; a tag ending in ",omitempty" loses exactly that suffix; any other tag is kept whole |
| `StructFields.CollectSpec` | pkg/utils/lib.go:10-28 | a key is in the map exactly when some non-zero field has it, and it holds the value of the last such field |
| `StructFields.CollectSkipsZero` | pkg/utils/lib.go:14-17 | a zero-valued field contributes nothing: the map is as if the field were absent |
| `StructFields.StructToMap` | pkg/utils/lib.go:5-31 | the loop builds the map of non-zero fields under their intended keys |
| `StructFields.StructToMapAsWritten` | pkg/utils/lib.go:5-31 | the loop as written cuts ten bytes from every tag, and so panics on any stored field whose tag has fewer than ten bytes |
| `StructFields.KeyAsWritten` | pkg/utils/lib.go:19-25 | as written, an untagged field's key is its name, and a tagged field's key is its tag without its last ten bytes, whatever they are |
| `StructFields.KeyAgreement` | pkg/utils/lib.go:23-24 | the as-written key is the intended one exactly when the field is untagged or its tag ends in ",omitempty" |
| `StructFields.UpdateRecordPanics` | pkg/internal/controllers/users/main.go:121-127 | the update record's `Password` (a bcrypt hash, tag "password") and `UpdatedAt` (tag "updatedAt") are always set, and both tags are under ten bytes, so the as-written slice is out of bounds |
| `StructFields.TenByteTag` | pkg/utils/lib.go:24 | a ten-byte tag without the option gives the empty key as written, but keeps its name as intended |
| `StructFields.UserKeys` | pkg/internal/controllers/users/main.go:14-21 | the `User` tags "pk,omitempty", "name" and "updatedAt" give the keys "pk", "name" and "updatedAt" |

## Left out

- Goroutines, `sync.WaitGroup` and the unsynchronised `append` to `allResults`
  (test.go:152) are not modelled. Chunks run one after another in a given
  completion order. Records that concurrent appends could lose are therefore
  not modelled: the model states what a race-free run returns.
- `Batch.BatchGetItems`, `Batch.BatchWriteItems`: these take the completion
  order as an argument. Which order the Go scheduler picks is not modelled.
  The lemmas state what holds for every order.
- The store (`pkg/internal/db/db.go`), `dynamodbattribute.MarshalMap`,
  `json.Marshal` and `json.Unmarshal` are function parameters.
  - db.go adds a "failed to …: %w" prefix to every store error. The model
    passes the store's error through as it is; the prefix belongs to the
    parameter.
  - The AWS SDK client, the `context` argument and the `.env` loading are
    not part of this model.
- `Batch.QueryItems`: the DynamoDB expression builder is not modelled.
  - The model passes the whole key list to the query parameter.
  - As written, the key condition comes from the last key map only.
  - The other attributes go to `WithCondition`, where each call replaces the
    condition set before. That condition is never sent: the query passes only
    the key condition, names and values to the store (db.go:134-140). So those
    attributes never filter the result.
  - Errors from the builder's `Build` are not modelled.
- `Router.Router`: these Go behaviours are not modelled:
  - Route templates are regular expressions, so a literal character that is
    a regexp metacharacter (for example `.`) matches more than itself.
  - An invalid capture name panics in `regexp.MustCompile`.
  - A template with two placeholders of the same name is not checked. The
    model lets the last capture win.
  - Go map iteration order is random, so the route table is a sequence
    searched from the front. When several routes match, Go may pick any of
    them.
- `Router.Router` requires a non-nil `PathParameters` map whenever the
  matched route writes a parameter. Writing into a nil Go map panics.
- `Router.Router`: the error from `json.Unmarshal` of the body is ignored in
  the source. The decode parameter stands for whatever value it leaves.
  `RouteMethodConfig.Authenticate` is carried but never read, as in the
  source.
- `Router.Router`: the 405 response carries no `Allow` header, although
  section 15.5.6 of RFC 9110 requires one. The model does what the code does.
- `StructFields.StructToMap`: these reflection behaviours are not modelled:
  - the struct is given as its fields in declaration order;
  - `IsZero` is a flag on each field;
  - `field.Interface()` panics on unexported fields, and that panic is not
    modelled.
- `StructFields.StructToMapAsWritten`: Go's `len` and slicing count bytes,
  so a tag is modelled as its UTF-8 bytes, one element each. The model does
  not encode characters to bytes. A literal tag reads as written only when it
  is ASCII, as every tag in this program is. A non-ASCII tag must be given in
  its encoded form: "ééééé" is ten elements and becomes the empty key.
- `Http.Response`: `events.APIGatewayProxyResponse` also has
  `MultiValueHeaders` and `IsBase64Encoded`. The code never sets them, and
  the model leaves them out.

## Findings

| source | as written | input that shows it | evidently intended | confidence | as-written member | corrected member |
|---|---|---|---|---|---|---|
| pkg/utils/lib.go:24 | `tag[:len(tag)-len(",omitempty")]` removes the last ten bytes of every tag, whether or not it ends with ",omitempty" | `UpdateUser` (pkg/internal/controllers/users/main.go:121-127) stores a record whose `Password` is a bcrypt hash and so never empty. Its tag "password" has 8 bytes, so the slice is out of range and panics; `Name` (tag "name", 4 bytes) panics first when a name is given, and `UpdatedAt` ("updatedAt", 9 bytes) would too. A 10-byte tag such as "identifier" silently becomes the empty key | remove ",omitempty" only when present, as the comment at lib.go:23 says (`strings.TrimSuffix`) | high; not executed | `StructFields.StructToMapAsWritten`, shown by `StructFields.UpdateRecordPanics` and `StructFields.TenByteTag` | `StructFields.StructToMap`, with `StructFields.Key`, `StructFields.CollectSpec` and `StructFields.KeyAgreement` |
