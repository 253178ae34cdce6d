# Miles alerts: a Dafny model of the webhook API and the live dashboard

Miles receives Meraki-style alert webhooks, stores one row per alert and
shows them on a dashboard. This project models the core of that pipeline:

- **Admission** of a delivery: the IP allowlist, checked against the
  `x-forwarded-for` entries and the socket address; the JSON content-type
  check; the shared-secret check, by header or by a `sharedSecret` body
  field. Also the admin bearer token and the start-up configuration read
  from environment variables (module `Gate`).
- **Normalisation** of a payload (module `Normalize`):
  - the dedupe key: the vendor `alertId`/`id` when it is a non-empty
    string, otherwise a hash of the raw body and its `sentAt`/`occurredAt`
    stamp;
  - the `details` summary, which joins alert type, device, network and text
    with `" • "`;
  - the event time, taken from the first of three dates that parses, else
    the clock;
  - the image URL fallbacks and the nullable string columns.
- **The event table** (module `Store`): a sequence kept in listing order,
  `occurredAt` descending then `id` descending, with distinct ids and
  distinct dedupe keys. The upsert by dedupe key replaces a row in place of
  its old one or inserts a new row with a fresh id.
- **`GET /api/events`** (modules `Query` and `Paging`): list parameters,
  optional parameters, the limit clamp to 1..200 (default 50), the
  conjunctive filter, the cursor fetch of `limit + 1` rows after the cursor
  row, the cut into a page, and the next cursor. Also `GET /api/events/:id`.
- **`GET /api/img`** (module `ImageCache`): the image proxy and its
  five-minute in-memory cache.
- **`GET /api/stream`** (module `Sse`): the registry of open streams, the
  `event`/`data` frames a broadcast writes to each, and the keepalive
  comment. A client-side reader parses the bytes back.
- **`POST /api/webhooks/meraki` and `POST /api/admin/seed`** (module
  `Webhook`): the handlers that tie these together.
- **The dashboard** (module `Dashboard`): the case-insensitive search over
  six columns, the prepend of live events and the unseen counter,
  `classNames`, and the severity colour of the status dot.

JavaScript's value semantics are modelled in `Js`. This covers truthiness,
`||`, `??`, property access on possibly non-object values and `String(x)`.
JavaScript string operations are modelled in `Strings`: `split`, `join`,
`trim`, `includes`, `toLowerCase`, `parseInt` and code-point ordering.
SHA-256, `new Date(x)`, `JSON.stringify`, `toISOString`, `new URL(u).protocol`,
the clock, `fetch` and the identifiers the database generates are
parameters of the operations that use them.

The pagination is modelled twice:

- `Paging.PageAsWritten` is the handler as written. `Query.Answer` and
  `Query.EventsEndpoint` use it, so the endpoint's cursor names the popped
  row.
- `Paging.PageOf` is the corrected version, whose cursor names the last row
  returned. `Query.AnswerCorrected`, `Query.EventsEndpointCorrected` and
  `Paging.FollowFromStart` use it.

See "## Findings".

The alert type of the summary defaults to `'alert'` (`payload.alertType ||
'alert'`), but the default only replaces a falsy value. A truthy alert type
that stringifies to the empty string, such as `[]`, is kept. When no device,
network or text part is truthy, the parts then join to `""`, so `details` is
null; `Normalize.EmptyArrayAlertTypeLosesDetails` states this. When a device
name is present, the line starts with the separator instead (`" • cam"`);
`Normalize.EmptyArrayAlertTypeLeadsWithSeparator` states that.

## Model

| member | source | states |
|---|---|---|
| Js.Or | packages/miles-api/src/index.ts:75-85 | `a \|\| b` is `a` when `a` is truthy and `b` otherwise, so it is truthy iff either side is |
| Js.Nullish | packages/miles-api/src/index.ts:150 | `a ?? b` is `b` exactly when `a` is null or undefined, else `a` |
| Js.Get | packages/miles-api/src/index.ts:75 | `payload?.key` is the property when the payload is an object that has it, and undefined otherwise |
| Js.ToStr | packages/miles-api/src/index.ts:97-105 | `String(x)` keeps a string unchanged, and a number's string parses back to the number |
| Js.TruthyScalarToStrNonEmpty | packages/miles-api/src/index.ts:97-105 | a truthy value other than an array never stringifies to the empty string |
| Js.EmptyArrayStringifiesEmpty | packages/miles-api/src/index.ts:86-88 | `[]` is truthy and stringifies to `""` |
| Strings.TrimStart | packages/miles-api/src/index.ts:153 | the result is a suffix of the input, everything cut is whitespace, and it starts with a non-space |
| Strings.TrimEnd | packages/miles-api/src/index.ts:153 | the result is a prefix of the input, everything cut is whitespace, and it ends with a non-space |
| Strings.Trim | packages/miles-api/src/index.ts:153 | the result has no whitespace at either end and uses only characters of the input |
| Strings.TrimIsCut | packages/miles-api/src/index.ts:153 | `trim` only removes whitespace from the two ends: the result is a contiguous slice of the input |
| Strings.TrimOfTrimmed | packages/miles-api/src/index.ts:27 | trimming an already trimmed string changes nothing |
| Strings.Split | packages/miles-api/src/index.ts:26 | `split` yields at least one piece and no piece contains the separator |
| Strings.JoinSplit | packages/miles-api/src/index.ts:153 | joining the pieces of a split with the separator gives back the string |
| Strings.SplitJoin | packages/miles-api/src/index.ts:153 | splitting a join of separator-free pieces gives back the pieces |
| Strings.NonEmptyTrimmed | packages/miles-api/src/index.ts:27-28 | `.map(trim).filter(Boolean)` keeps only non-empty trimmed items, each built from the input's characters; a single piece gives its trim, or nothing when that is empty |
| Strings.NonEmptyTrimmedAppend | packages/miles-api/src/index.ts:27-28 | `.map(trim).filter(Boolean)` works piece by piece: the result for two runs of pieces is the two results in order, so every piece's non-empty trim is kept in its place |
| Strings.CommaItems | packages/miles-api/src/index.ts:25-28 | every item of a comma list is non-empty, trimmed and comma-free |
| Strings.CommaItemsOfPieces | packages/miles-api/src/index.ts:25-28 | a comma list made of any comma-free pieces reads back as those pieces trimmed, with the empty ones dropped, in order |
| Strings.CommaItemsOfJoin | packages/miles-api/src/index.ts:149-154 | a comma list of clean items joined with `,` reads back as exactly those items |
| Strings.NonEmptyTrimmedOfClean | packages/miles-api/src/index.ts:27-28 | clean items pass `.map(trim).filter(Boolean)` unchanged |
| Strings.EmptyContainsOnlyEmpty | packages/miles-web/src/ui/App.tsx:140 | the empty string includes only the empty string |
| Strings.ContainsEmpty | packages/miles-web/src/ui/App.tsx:140 | every string includes the empty string |
| Strings.Lower | packages/miles-web/src/ui/App.tsx:136-140 | `toLowerCase` maps each character on its own and keeps the length |
| Strings.LowerIdempotent | packages/miles-web/src/ui/App.tsx:136-140 | lower-casing twice is lower-casing once |
| Strings.LessIrreflexive | packages/miles-api/src/index.ts:183-186 | no id sorts before itself |
| Strings.LessTransitive | packages/miles-api/src/index.ts:183-186 | the id order is transitive |
| Strings.LessTotal | packages/miles-api/src/index.ts:183-186 | any two distinct ids are ordered one way or the other |
| Strings.LessAsymmetric | packages/miles-api/src/index.ts:183-186 | no two ids sort before each other |
| Strings.NatToString | packages/miles-api/src/index.ts:180 | the decimal digits of a natural have no leading zero and denote it |
| Strings.IntToString | packages/miles-api/src/index.ts:180 | the decimal text of an integer starts with `-` exactly when it is negative |
| Strings.DigitPrefix | packages/miles-api/src/index.ts:180 | the leading digits of a string: all digits, a prefix, and not followed by a digit |
| Strings.ParseInt | packages/miles-api/src/index.ts:180 | `parseInt(s, 10)` is NaN exactly when no digit follows the leading whitespace and sign |
| Strings.ParseIntOfIntToString | packages/miles-api/src/index.ts:180 | `parseInt(String(n), 10)` is `n` for every integer |
| Gate.EnvOr | packages/miles-api/src/index.ts:21-25 | the primary variable when non-empty, else the fallback when non-empty, else `""` |
| Gate.LoadConfig | packages/miles-api/src/index.ts:20-28 | each setting is its `MILES_` variable or the fallback variable, and the allowlist is the clean comma items of its variable |
| Gate.AllowlistOfJoin | packages/miles-api/src/index.ts:25-28 | an allowlist variable holding clean addresses joined with `,` configures exactly those addresses |
| Gate.ClientIps | packages/miles-api/src/index.ts:47-52 | the candidates are exactly the clean forwarded-for entries and the non-empty socket address, none empty |
| Gate.AnyListed | packages/miles-api/src/index.ts:57 | true iff some candidate address is on the allowlist |
| Gate.IpAllowed | packages/miles-api/src/index.ts:54-58 | an empty allowlist admits everyone; otherwise admitted iff a client address is listed |
| Gate.ContentTypeAccepted | packages/miles-api/src/index.ts:119 | accepted iff a content-type header is present and includes `application/json` |
| Gate.VerifySecret | packages/miles-api/src/index.ts:60-66 | true iff the configured header carries the expected value or the body's string `sharedSecret` equals the configured one; with neither configured nothing passes |
| Gate.NonStringBodySecretIgnored | packages/miles-api/src/index.ts:63-64 | a non-string `sharedSecret` never authenticates, even if it would stringify to the secret |
| Gate.AdminAuthorized | packages/miles-api/src/index.ts:281-283 | authorized iff an admin token is configured and the header is exactly `Bearer <token>`; no token means nobody |
| Normalize.FirstTruthy | packages/miles-api/src/index.ts:92-93 | an `a \|\| b \|\| …` chain is the first truthy operand, or the last one when none is |
| Normalize.ToDate | packages/miles-api/src/index.ts:68-72 | a falsy value gives no date, and a truthy one gives exactly the date parser's answer |
| Normalize.BuildDedupeKey | packages/miles-api/src/index.ts:74-79 | the key is the vendor id when it is a non-empty string, else the hash of the raw body and its stamp |
| Normalize.AlertIdIsKey | packages/miles-api/src/index.ts:75-76 | a non-empty string `alertId` is the key, whatever the body |
| Normalize.IdIsKeyWhenAlertIdFalsy | packages/miles-api/src/index.ts:75-76 | with a falsy `alertId`, a non-empty string `id` is the key |
| Normalize.NonStringAlertIdShadowsId | packages/miles-api/src/index.ts:75-78 | a truthy non-string `alertId` hides a string `id`, so the key is hashed |
| Normalize.HashedKeyDependsOnBodyAndStamp | packages/miles-api/src/index.ts:77-78 | two hashed payloads with the same raw body and stamp get the same key |
| Normalize.HashInputSeparates | packages/miles-api/src/index.ts:78 | the hash input tells deliveries apart: the same raw body with different stamps, or different raw bodies with the same stamp, give different inputs |
| Normalize.KeepTruthy | packages/miles-api/src/index.ts:86 | `.filter(Boolean)` keeps only truthy parts and never adds any |
| Normalize.KeepTruthyCounts | packages/miles-api/src/index.ts:86 | `.filter(Boolean)` keeps every occurrence of each truthy value and drops every falsy one |
| Normalize.KeepTruthyAppend | packages/miles-api/src/index.ts:86 | filtering a concatenation filters each part on its own |
| Normalize.StrAll | packages/miles-api/src/index.ts:152 | `.map(String)` stringifies each item in place |
| Normalize.SummaryParts | packages/miles-api/src/index.ts:82-86 | the parts are the alert type (or `'alert'`), followed by the device, network and text parts each exactly when truthy, in that order |
| Normalize.SummarizeDetails | packages/miles-api/src/index.ts:81-89 | the summary is the alert type's text followed by `" • "` and the text of each truthy device, network and text part, in that order, and absent exactly when that line is empty |
| Normalize.SummaryLine | packages/miles-api/src/index.ts:86-87 | joining the kept parts with `" • "` gives the alert type's text followed by `" • "` and the text of each truthy later part |
| Normalize.DetailsSkipMissingDevice | packages/miles-api/src/index.ts:83-87 | a payload without any device field is summarised as `type • network • text` |
| Normalize.DetailsSkipMissingNetwork | packages/miles-api/src/index.ts:84-87 | a payload without any network field is summarised as `type • device • text` |
| Normalize.JoinStartsWithFirst | packages/miles-api/src/index.ts:87 | a join starts with its first part |
| Normalize.DetailsLeadWithAlertType | packages/miles-api/src/index.ts:82-88 | for a non-array alert type the summary exists and starts with it, or with `alert` when there is none |
| Normalize.DetailsOfFullPayload | packages/miles-api/src/index.ts:82-88 | a payload with all four string parts is summarised as `type • device • network • text` |
| Normalize.SummaryOfFour | packages/miles-api/src/index.ts:86-88 | four non-empty strings are all kept and joined with `" • "` |
| Normalize.JoinFour | packages/miles-api/src/index.ts:87 | a join of four parts is the parts with the separator between them |
| Normalize.KeepAllTruthy | packages/miles-api/src/index.ts:86 | filtering all-truthy parts changes nothing |
| Normalize.DeviceFallsBackToSerialThenMac | packages/miles-api/src/index.ts:83 | the device part is the name, else the serial, else the MAC |
| Normalize.EmptyArrayAlertTypeLosesDetails | packages/miles-api/src/index.ts:82-88 | a payload whose alert type is `[]` and whose device, network and text parts are all falsy gets no details at all |
| Normalize.EmptyArrayAlertTypeLeadsWithSeparator | packages/miles-api/src/index.ts:82-88 | with alert type `[]` and only a device name `d`, the details are the separator followed by `d` |
| Normalize.OptStr | packages/miles-api/src/index.ts:98-104 | `x ? String(x) : null` is `String(x)` exactly when `x` is truthy, else null |
| Normalize.EventTime | packages/miles-api/src/index.ts:92 | `occurredAt`, then `alertData.occurredAt`, then `sentAt`, the first that parses, each step stated; else the clock |
| Normalize.ImageUrlOf | packages/miles-api/src/index.ts:93 | the image URL is present iff one of its four sources is truthy; it is the string of `imageUrl` when that is truthy, else of `alertData.imageUrl`, else of `motionRecapImage`, else of `recapImageUrl`, each taken only when the earlier ones are falsy |
| Normalize.AlertTypeOf | packages/miles-api/src/index.ts:97 | the alert type is the string of a truthy `alertType` and `unknown` otherwise; it is never empty for a non-array value |
| Normalize.MapPayloadToEvent | packages/miles-api/src/index.ts:91-108 | the key and raw payload are kept, and each of the seven nullable columns is `x ? String(x) : null` of its own payload field |
| Normalize.ColumnsCopied | packages/miles-api/src/index.ts:98-104 | each nullable column is `String` of its field when truthy and null otherwise; a string field is copied, and null when empty |
| Store.BeforeIrreflexive | packages/miles-api/src/index.ts:183-186 | the listing order is strict |
| Store.BeforeTransitive | packages/miles-api/src/index.ts:183-186 | the listing order is transitive |
| Store.BeforeTotal | packages/miles-api/src/index.ts:183-186 | rows with distinct ids are always ordered |
| Store.BeforeAsymmetric | packages/miles-api/src/index.ts:183-186 | no two rows come before each other |
| Store.FindByKey | packages/miles-api/src/index.ts:134 | `where: { dedupeKey }` finds a row with that key, and none exactly when no row has it |
| Store.FindById | packages/miles-api/src/index.ts:211 | `findUnique({ where: { id } })` finds a row with that id, and none exactly when no row has it |
| Store.FindByKeyUnique | packages/miles-api/src/index.ts:134 | in a valid table the row found by a key is the row that has it |
| Store.FindByIdUnique | packages/miles-api/src/index.ts:211 | with distinct ids the row found by an id is the row that has it |
| Store.RemoveKey | packages/miles-api/src/index.ts:133-137 | dropping a key keeps exactly the rows with other keys |
| Store.RemoveKeyKeepsValid | packages/miles-api/src/index.ts:133-137 | dropping a key keeps the table sorted with distinct ids and keys |
| Store.RemoveKeyLength | packages/miles-api/src/index.ts:133-137 | dropping an absent key changes nothing; a present key removes exactly one row |
| Store.Insert | packages/miles-api/src/index.ts:133-137 | inserting adds exactly the new row |
| Store.InsertSorted | packages/miles-api/src/index.ts:183-186 | inserting into a sorted table keeps it sorted |
| Store.InsertIdsKeys | packages/miles-api/src/index.ts:133-137 | inserting adds exactly the row's id and key |
| Store.InsertDistinct | packages/miles-api/src/index.ts:133-137 | inserting a row with a new id and key keeps ids and keys distinct |
| Store.Upsert | packages/miles-api/src/index.ts:133-137 | the table stays valid; the saved row carries the data; an existing key keeps its id and the row count; a new key gets the fresh id and one more row |
| Store.ReplaceRow | packages/miles-api/src/index.ts:133-137 | replacing the row of a key keeps the table valid, changes only that key's row, and adds the key |
| Store.UpsertActsAsMapUpdate | packages/miles-api/src/index.ts:133-137 | after an upsert, the upserted key finds the saved row and every other key finds what it found before |
| Store.SortedSameRowsEqual | packages/miles-api/src/index.ts:183-186 | two sorted tables with distinct ids and the same rows are equal |
| Store.UpsertIdempotent | packages/miles-api/src/index.ts:133-137 | upserting the same data twice leaves the table and the saved row as after the first time, whatever fresh id is offered |
| Store.UpsertAll | packages/miles-api/src/index.ts:317-322 | upserting a batch in order keeps the table valid and uses only existing or offered ids |
| Store.LastWithKey | packages/miles-api/src/index.ts:317-322 | the last data of a batch with a given key, or none when the batch lacks it |
| Store.UpsertAllLastWriteWins | packages/miles-api/src/index.ts:317-322 | after a batch, each key holds the batch's last data for it, or its old row when the batch lacks it |
| Paging.Matching | packages/miles-api/src/index.ts:188-189 | the rows the `where` clause selects are never more than the table |
| Paging.MatchingMembers | packages/miles-api/src/index.ts:188-189 | a row is selected iff it is in the table and passes the filter |
| Paging.MatchingSorted | packages/miles-api/src/index.ts:183-190 | the selected rows stay in listing order |
| Paging.WindowIsSuffix | packages/miles-api/src/index.ts:192 | the rows from the cursor row on are a suffix of the selected rows |
| Paging.DropBeforeAt | packages/miles-api/src/index.ts:192 | starting at a row of a sorted list gives exactly the list from that row's index |
| Paging.Take | packages/miles-api/src/index.ts:191 | `take: n` gives a prefix of at most `n` rows, all of them when fewer exist |
| Paging.CutAsWritten | packages/miles-api/src/index.ts:196-200 | the handler's cut keeps the first `limit` rows; a cursor exists iff a row was popped, and it names the popped row |
| Paging.Cut | packages/miles-api/src/index.ts:196-200 | the corrected cut keeps the first `limit` rows; a cursor exists iff more rows were fetched, and it names the last row returned |
| Paging.PageAsWritten | packages/miles-api/src/index.ts:188-206 | as written, a page is the first `limit` fetched rows with the count of every matching row, and its cursor exists iff `limit + 1` rows were fetched and names the extra one |
| Paging.PageOf | packages/miles-api/src/index.ts:188-206 | a corrected page is the first `limit` fetched rows with the count of every matching row, and its cursor exists iff more were fetched and names its own last row |
| Paging.AsWrittenSameRows | packages/miles-api/src/index.ts:196-200 | the handler's cut and the corrected one return the same rows and count |
| Paging.FetchRun | packages/miles-api/src/index.ts:188-193 | whatever the cursor, the fetched rows are consecutive matching rows |
| Paging.PageIsRun | packages/miles-api/src/index.ts:188-200 | every page is a run of consecutive matching rows |
| Paging.PageSortedAndMatching | packages/miles-api/src/index.ts:183-193 | on a sorted table every page row is a table row that passes the filter, and the page is in listing order |
| Paging.FetchAfter | packages/miles-api/src/index.ts:192 | with a valid table, the fetch after the matching row at index `k` is the matching rows from `k + 1` |
| Paging.FirstPage | packages/miles-api/src/index.ts:188-206 | the first page is the first `limit` matching rows, with a cursor naming its last row iff more match |
| Paging.PageAfter | packages/miles-api/src/index.ts:188-206 | the page after the row at index `k` is the next `limit` matching rows, with a cursor naming its last row iff more follow |
| Paging.FirstPageAsWritten | packages/miles-api/src/index.ts:196-200 | as written, the first page's cursor names the row after the page |
| Paging.PageAfterAsWritten | packages/miles-api/src/index.ts:192-200 | as written, the page after row `k` starts at `k + 1` and its cursor names the row after the page |
| Paging.EveryPageResumes | packages/miles-api/src/index.ts:181-206 | every page served after a matching row continues right after that row |
| Paging.FollowFromStart | packages/miles-api/src/index.ts:181-206 | following the corrected cursors from the first page for `n` requests returns the first `n * limit` matching rows in order, so every row is reached once and none is skipped |
| Paging.FollowAsWrittenStaysAhead | packages/miles-api/src/index.ts:192-200 | as written, every page followed from an as-written cursor lies beyond that cursor's row |
| Paging.AsWrittenNeverReturnsBoundaryRow | packages/miles-api/src/index.ts:196-200 | as written, the first cursor names the row at index `limit`, and no number of followed pages ever returns that row |
| Query.ParseList | packages/miles-api/src/index.ts:149-154 | falsy gives no items; an array gives its items stringified; any other truthy value gives the comma items of its string |
| Query.ParseListOfPieces | packages/miles-api/src/index.ts:149-154 | a parameter sent as any comma-joined pieces parses to those pieces trimmed, with the empty ones dropped, in order |
| Query.ParseListOfJoin | packages/miles-api/src/index.ts:149-154 | a list sent as `a,b,c` is parsed back as exactly its items |
| Query.DefaultLimitParses | packages/miles-api/src/index.ts:180 | the default text `'50'` parses to the default limit |
| Query.ClampLimit | packages/miles-api/src/index.ts:180 | NaN and 0 give 50, negatives give 1, above 200 gives 200, and values in range are kept |
| Query.ParseLimit | packages/miles-api/src/index.ts:180 | the limit is always in 1..200, and is 50 when the parameter is falsy |
| Query.LimitInRangeKept | packages/miles-api/src/index.ts:180 | a numeric limit within 1..200 is used as is |
| Query.OptParam | packages/miles-api/src/index.ts:158-162 | an optional parameter is `String` of its value exactly when the value is truthy, and a non-empty string is kept |
| Query.ParseQuery | packages/miles-api/src/index.ts:149-181 | every field of the parsed request comes from its own parameter: lists, optional values, dates, limit and cursor |
| Query.Answer | packages/miles-api/src/index.ts:188-206 | as written: the page is the first `limit` of the `limit + 1` rows fetched after the cursor, with a next cursor iff the extra row was fetched, naming that row |
| Query.AnswerCorrected | packages/miles-api/src/index.ts:188-206 | corrected: the same rows and count, with a next cursor iff more rows were fetched, naming the last row returned |
| Query.EventsEndpoint | packages/miles-api/src/index.ts:147-207 | the handler as written answers the parsed request, with at most `limit` rows and the count of every row passing the filter |
| Query.EventsEndpointCorrected | packages/miles-api/src/index.ts:147-207 | the handler with the corrected cursor answers the parsed request, with at most `limit` rows and the same count |
| Query.EventsEndpointFirstPage | packages/miles-api/src/index.ts:181-200 | without a cursor the endpoint returns the first `limit` matching rows, and its cursor names the row after them |
| Query.EventsEndpointPageAfter | packages/miles-api/src/index.ts:181-200 | with the cursor on matching row `k`, the endpoint returns the `limit` matching rows after it, and its cursor names the row after them |
| Query.EventsEndpointRowsMatch | packages/miles-api/src/index.ts:164-193 | every returned row passes every set filter, and the rows are in listing order |
| Query.EventsEndpointHonoursRequest | packages/miles-api/src/index.ts:156-193 | from query string to rows: each returned row has the requested network and serial, one of the requested types and severities, a time within `since`..`until`, and the `q` text |
| Query.ParsedFilterHolds | packages/miles-api/src/index.ts:156-178 | a row the parsed filter accepts honours each parameter that was sent |
| Query.EventById | packages/miles-api/src/index.ts:209-214 | found iff a row has that id, and then it is that row; otherwise a 404 |
| ImageCache.UrlParam | packages/miles-api/src/index.ts:250 | a falsy `url` parameter gives `""`, and a string is kept |
| ImageCache.Serve | packages/miles-api/src/index.ts:249-278 | 400 on a missing or non-http(s) URL; a fresh hit is served without a fetch; on a miss or stale entry the origin is asked, a throw gives 500, a non-ok status 502, and an ok reply is served and stored with the origin's body and content type, stamped now |
| ImageCache.ContentTypeOf | packages/miles-api/src/index.ts:270 | the origin's content type when present and non-empty, else `application/octet-stream` |
| ImageCache.ServeKeepsWellFormed | packages/miles-api/src/index.ts:244-278 | the cache holds only proxyable URLs, non-empty content types and past stamps, whatever the request |
| ImageCache.RepeatWithinTtlIsCached | packages/miles-api/src/index.ts:258-264 | within five minutes of a successful fetch the same URL is answered from the cache with the same reply |
| ImageCache.ExpiredEntryRefetched | packages/miles-api/src/index.ts:247-266 | an entry five minutes old or more sends the request to the origin |
| ImageCache.FailureNotCached | packages/miles-api/src/index.ts:265-277 | a failed fetch is not remembered: the next request fetches again |
| Sse.Payloads | packages/miles-api/src/index.ts:35-41 | a stream carries at most one payload per write |
| Sse.LineLength | packages/miles-api/src/index.ts:38-39 | the first line ends at the first newline |
| Sse.ParseFrame | packages/miles-api/src/index.ts:38-39 | an `event`/`data` frame reads back as its data followed by the rest of the stream |
| Sse.ParseKeepalive | packages/miles-api/src/index.ts:236 | a keepalive comment is invisible to the reader |
| Sse.ParseRender | packages/miles-api/src/index.ts:35-41 | a stream of one-line payloads reads back as exactly its payloads, in order |
| Sse.InitialInv | packages/miles-api/src/index.ts:32-33 | at start-up there are no clients and ids start at 1 |
| Sse.Connect | packages/miles-api/src/index.ts:232-234 | a new stream gets the counter's value as its id, starts empty, and the counter goes up by one |
| Sse.Disconnect | packages/miles-api/src/index.ts:238-241 | closing removes exactly that stream, leaves the others untouched and keeps the counter |
| Sse.Tick | packages/miles-api/src/index.ts:235-237 | a keepalive tick writes one comment to its own stream only and keeps the counter |
| Sse.Broadcast | packages/miles-api/src/index.ts:35-41 | a broadcast writes one frame to every open stream, opens or closes none and keeps the counter |
| Sse.Frames | packages/miles-api/src/index.ts:323 | the frames for a batch are one per payload, in order |
| Sse.BroadcastAll | packages/miles-api/src/index.ts:323 | broadcasting a batch appends its frames, in order, to every open stream |
| Sse.Apply | packages/miles-api/src/index.ts:226-242 | every registry operation keeps ids below the counter, and only an open moves the counter, by one |
| Sse.Run | packages/miles-api/src/index.ts:226-242 | any sequence of operations keeps ids below the counter and advances it by the number of opens |
| Sse.OpensGetIncreasingIds | packages/miles-api/src/index.ts:232-233 | of two opens in one run the later gets a strictly larger id, so no id is handed out twice |
| Sse.StepKeepsClient | packages/miles-api/src/index.ts:226-242 | a stream that is not closed stays open and receives exactly the operation's writes for it |
| Sse.StaysConnectedReceivesAll | packages/miles-api/src/index.ts:35-41 | a stream that stays open receives every broadcast payload, in order |
| Sse.OneLineKept | packages/miles-api/src/index.ts:35-41 | when every broadcast payload is one line, every stream holds only one-line frames |
| Sse.ClientReadsBroadcasts | packages/miles-api/src/index.ts:35-41 | a client connected before a series of operations and not closed reads exactly the broadcast payloads, in order |
| Webhook.RawBody | packages/miles-api/src/index.ts:128 | the hashed body is the raw body when non-empty, else the stringified payload |
| Webhook.DataOf | packages/miles-api/src/index.ts:128-130 | the stored columns carry the delivery's dedupe key and raw payload |
| Webhook.HandleWebhook | packages/miles-api/src/index.ts:115-145 | 403, 415 and 401 exactly when the IP, content type or secret check fails first; otherwise 200. An admitted delivery updates only its key's row and sends that row to every open stream; a rejected delivery or a failed write changes nothing |
| Webhook.RedeliveryKeepsTable | packages/miles-api/src/index.ts:129-137 | delivering the same alert again leaves the table as after the first delivery |
| Webhook.SameAlertIdSharesRow | packages/miles-api/src/index.ts:75-76 | two deliveries with the same `alertId` share one row, which keeps its id and takes the later data |
| Webhook.SampleKeys | packages/miles-api/src/index.ts:300-318 | the two samples are stored under `sample-1` and `sample-2` |
| Webhook.UpsertPair | packages/miles-api/src/index.ts:317-322 | after upserting two rows each key finds its saved row, the table grows by at most two, and not at all when both keys were present |
| Webhook.PairFinds | packages/miles-api/src/index.ts:317-322 | after two upserts with distinct keys each key finds the row its upsert saved |
| Webhook.HandleSeed | packages/miles-api/src/index.ts:280-325 | 401 and no change without the admin token; otherwise `sample-1` and `sample-2` hold the two samples' columns, every open stream gets their two frames in order, and the reply is `{inserted: 2}` |
| Webhook.WriteSamples | packages/miles-api/src/index.ts:316-324 | for any two rows with different keys: each key finds a row carrying its data, every open stream gets the two saved rows' frames in order, and the reply counts two |
| Webhook.SeedWrites | packages/miles-api/src/index.ts:323 | broadcasting the two saved rows appends their two frames, in order, to every open stream |
| Webhook.ReseedKeepsRowCount | packages/miles-api/src/index.ts:280-325 | seeding a second time does not change the number of rows |
| Dashboard.Truthy | packages/miles-web/src/ui/App.tsx:139 | `.filter(Boolean)` keeps exactly the present, non-empty columns; one value is kept alone when present and dropped otherwise |
| Dashboard.TruthyAppend | packages/miles-web/src/ui/App.tsx:139 | `.filter(Boolean)` works value by value: the result for two runs of values is the two results in order, so each present value keeps its place and multiplicity |
| Dashboard.AnyContains | packages/miles-web/src/ui/App.tsx:140 | `.some(...)` holds iff some column, lower-cased, includes the needle |
| Dashboard.KeepsIffHit | packages/miles-web/src/ui/App.tsx:137-141 | the search keeps a row iff one of its six columns is present and, lower-cased, includes the needle |
| Dashboard.EmptyFieldsNeverMatch | packages/miles-web/src/ui/App.tsx:138-140 | a row whose six columns are all absent or empty never matches |
| Dashboard.Where | packages/miles-web/src/ui/App.tsx:137-141 | `events.filter(...)` keeps exactly the matching rows, in their order, each as often as it occurs |
| Dashboard.Filtered | packages/miles-web/src/ui/App.tsx:134-142 | an empty query shows everything; otherwise exactly the rows with a column that includes the lower-cased query, in order and with their multiplicity |
| Dashboard.SubsequenceOfSelf | packages/miles-web/src/ui/App.tsx:135 | a list is an order-preserving selection of itself |
| Dashboard.SearchIgnoresQueryCase | packages/miles-web/src/ui/App.tsx:136 | queries that differ only in case show the same rows |
| Dashboard.OnLiveEvent | packages/miles-web/src/ui/App.tsx:114-115 | a live event goes on top of the list and bumps the unseen count |
| Dashboard.OnShow | packages/miles-web/src/ui/App.tsx:125-128 | the toast's Show action clears the unseen count and keeps the list |
| Dashboard.ReceiveStacksNewestFirst | packages/miles-web/src/ui/App.tsx:114-115 | after a burst of live events the list is the arrivals newest first, above the old list, and the count grew by the burst |
| Dashboard.FilteredAfterLiveEvent | packages/miles-web/src/ui/App.tsx:114-142 | a live event appears at the top of the filtered list exactly when it matches the query; the rows below are unchanged |
| Dashboard.ClassNames | packages/miles-web/src/ui/App.tsx:22-24 | `classNames` is empty exactly when no argument is truthy |
| Dashboard.ClassNamesOfThree | packages/miles-web/src/ui/App.tsx:22-24 | for a fixed first and last class and an optional middle one, the result is the present classes in argument order, one space apart |
| Dashboard.JoinNonEmpty | packages/miles-web/src/ui/App.tsx:23 | joining non-empty class names is empty only for no names |
| Dashboard.ClassNamesSplit | packages/miles-web/src/ui/App.tsx:22-24 | splitting the result on spaces gives back exactly the truthy space-free arguments |
| Dashboard.SeverityDot | packages/miles-web/src/ui/App.tsx:175 | red iff `Critical`, amber iff `Warning`, emerald otherwise |
| Dashboard.StatusDotClass | packages/miles-web/src/ui/App.tsx:173-176 | the dot's class is the base classes plus the severity colour as its last class |

## Left out

- The database (Prisma): the table is a sorted sequence. Unique ids and the
  atomicity of `upsert` are taken as given. Fresh ids are parameters, and
  each comes with a precondition that it is unused.
- The SQLite branch of `raw` (index.ts line 107) stores
  `JSON.stringify(payload)` instead of the payload. The model always keeps
  the payload, because the stringifier is a parameter and the two forms
  carry the same information.
- `q` matching in `GET /api/events` is modelled as case-sensitive substring
  matching. Whether the database ignores case depends on its collation,
  which is not part of the code.
- Express, CORS and the body parser are not modelled. The raw body is a field
  of the request and the parsed body a JSON value.
- Ports, logging and `app.listen` are not modelled.
- SHA-256, date parsing, `toISOString`, `JSON.stringify`, URL parsing, the
  clock and `fetch` are parameters. Their results are taken as given, so no
  property of the hash, for example collision resistance, is used.
- Asynchrony is not modelled: each handler runs to completion in one step,
  and timers are explicit `Tick` operations.
- A failing seed upsert is not modelled. The webhook's failing write is
  modelled by `storeFails`.
- `GET /api/alert-types` (index.ts lines 216-224) and `GET /healthz` are not
  modelled. Neither is part of ingestion, listing, the image cache or the
  stream.
- The React rendering, `dayjs` formatting, toasts, scrolling, the initial
  fetch on query change and `App.js` are not modelled. `App.js` is an older
  copy of `App.tsx`.
- `seed/samples.ts` is not part of this model. The seed handler uses its own
  inline samples.
- JavaScript numbers are modelled as integers. Fractional and non-finite
  values, and `parseInt` on exponent notation, are not modelled.
- `JSON.parse` of a frame on the dashboard is not modelled. The reader in
  `Sse` stops at the data line.
- Store.Before: orders ids by code point. The database compares ids by
  its own collation, which is not part of the code; for the generated ids
  the two agree.
- Strings.Lower: lower-cases ASCII letters only, because full Unicode case
  mapping is table-driven and outside the model.
- Webhook.RedeliveryKeepsTable: states the redelivery with the same receipt
  time. A later redelivery of a payload with no parsable date gets the new
  clock value as `occurredAt`, and with it a changed row.
- Paging.EveryPageResumes: speaks of cursors that name a matching row. A
  cursor naming a row the filter rejects is modelled in `Paging.Fetch`:
  the skip of one then drops the first matching row after it. No lemma is
  stated about that case, which needs the filter to change between
  requests.

## Findings

| source | as written | input that shows it | evidently intended | confidence | as-written member | corrected member |
|---|---|---|---|---|---|---|
| packages/miles-api/src/index.ts:196-200 | The handler fetches `limit + 1` rows and pops the extra one. It returns the popped row's id as `nextCursor`. The next request starts after that cursor (`skip: 1`), so the popped row is never sent. | Five matching rows r0..r4 and `limit = 2`. The first page is r0, r1 with cursor r2. The second page is r3, r4. r2 is never returned. | `nextCursor` names the last row returned, so that following the cursors visits every matching row once. | not executed | Paging.AsWrittenNeverReturnsBoundaryRow | Paging.FollowFromStart |
