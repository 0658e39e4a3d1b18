# notion_angi: a verified model of the page server's core

The program serves one HTML page listing dishes kept in a Notion table. On
`GET /` it reads a template, asks `fetchNotionData` for the table's rows, and
writes them, serialised, in place of the marker `var notion_data = [];`.
`fetchNotionData` keeps the last successful result in a module-level slot
`notionCache = { data, expires }` for 15 minutes. Each Notion page is turned
into a six-field item (`name`, `pictureUrl`, `disabled`, `tags`,
`lastEditedTime`, `createdTime`) by a callback built from optional chaining
and `||` defaults.

This model has four modules:

- `Wrappers`: the `Option` type, which stands for JavaScript `undefined`/`null`.
- `Normalizer`: the raw page as nested datatypes with an `Option` at every
  `?.` step. `NormalizeProps` is the total per-page mapping. `NormalizePage`
  and `NormalizeAll` add the one exception the callback can raise: a page
  whose `properties` is undefined.
- `Fetcher`: the cache slot as the class `DataCache` with fields `data` and
  `expires`. Its method `FetchNotionData` modifies `this` and is specified by
  the function `FetchOutcome` on a value `CacheEntry`, and the cache
  properties are stated on that function.
- `Handler`: finding the leftmost marker, the replacement exactly as
  `String.prototype.replace` performs it (`InjectAsWritten`, with the
  GetSubstitution expansion `Substitution`), the `GET /` response `Render`
  and the handler method `HandleRoot`, both built on that replacement. The
  literal insertion the code evidently intends is `Inject`, with the
  response `RenderCorrected` (see Findings).

Inputs the source takes from outside are parameters:

- `Date.now()` is `now: int`, read once when the call starts.
- The environment variables `NOTION_TABLE_ID` and `NOTION_TOKEN_ANGI` are
  `Option<string>`. JavaScript treats both `undefined` and `""` as missing,
  and so does `Configured`.
- The two Notion client calls are one `Upstream` value:
  - `databases.retrieve` rejects, or
  - it answers with the table's data-source ids together with the outcome of
    `dataSources.query` on the first of them. That outcome is a rejection or
    a list of pages.
- `fs.readFileSync` of the template is `Option<string>`.
- `JSON.stringify(data, null, 2)` is a function parameter
  `serialize: seq<Item> -> string`. Every render property holds for any
  serialiser.

Two behaviours of the code worth stating plainly:

- The per-page callback is not total. A page whose `properties` is
  undefined makes `props["Tên"]` throw inside the `try`. The whole fetch then
  returns `[]` and leaves the cache alone. `NormalizePage` returns `None` for
  such a page, and `FetchOutcome` treats that as a failure.
- Only the leftmost marker is replaced; the text before it and after it,
  later markers included, is kept, whatever the serialised data holds.
  `InjectAsWrittenAtFirstMarker` and `RenderAtFirstMarker` state this for the
  code as written (the assignment is expanded by GetSubstitution), and
  `InjectReplacesFirstMarker` for the literal insertion.

## Model

| member | source | states |
|---|---|---|
| `Normalizer.FirstContent` | index.js:53-54 | the result is the first segment's `text.content` when the whole chain `?.[0]?.text?.content` is defined, and `''` when any step of it is undefined |
| `Normalizer.OptionNames` | index.js:56 | `.map(t => t.name)`: same length as the options, and element i is option i's name, so order is kept |
| `Normalizer.NormalizeProps` | index.js:51-60 | `name` and `pictureUrl` come from the first title/rich-text segment, or are `''` if any accessor is absent; `disabled` is true exactly when the `Disabled` checkbox is `true`; `tags` are the multi-select names in order, or `[]` when the property or field is absent; both timestamps are copied verbatim |
| `Normalizer.NormalizePage` | index.js:50-58 | the callback gives an item exactly when `page.properties` is defined, and that item carries the page's own timestamps |
| `Normalizer.NormalizeAll` | index.js:50-61 | `results.map(...)` succeeds exactly when every page has properties; then it has one item per page, and item i is the normalisation of page i (nothing filtered or reordered) |
| `Normalizer.LaterSegmentsIgnored` | index.js:53-54 | segments after the first do not affect the extracted text |
| `Normalizer.EmptyContentIsDefault` | index.js:53-54 | an empty `content` gives the same `''` as an absent one |
| `Fetcher.IsFresh` | index.js:37 | a hit needs non-null `data`; `expires <= now` is never a hit (the test is strict); a cached empty sequence before its expiry is a hit, since an empty array is truthy |
| `Fetcher.Configured` | index.js:40 | configuration counts as present only when both values are set; an empty string for either counts as missing, as JavaScript falsiness has it |
| `Fetcher.Succeeds` | index.js:45-61 | no exception inside the `try` exactly when `databases.retrieve` resolves, `data_sources[0]` exists, the query resolves, and every returned page has `properties` |
| `Fetcher.FetchOutcome` | index.js:35-70 | a fresh entry is returned unchanged; missing configuration or any failure inside the `try` returns `[]` and leaves the cache alone; on success the result has one normalised item per page in order and the cache becomes exactly that sequence with expiry `now + 900000`; in every case the cache is either untouched or overwritten in full by the returned sequence |
| `Fetcher.DataCache.constructor` | index.js:29-32 | the slot starts as `{ data: null, expires: 0 }` |
| `Fetcher.DataCache.FetchNotionData` | index.js:35-70 | the returned items and the new fields are those of `FetchOutcome` on the old fields; a hit or any non-success leaves both fields unchanged; on success `data` holds exactly the returned sequence and `expires == now + 900000`, with `now` the value read at entry |
| `Fetcher.HitIgnoresUpstream` | index.js:36-39 | on a cache hit the outcome does not depend on the configuration or on anything the provider would answer, so no upstream call matters |
| `Fetcher.ExpiryIsExclusive` | index.js:37-64 | at `now == expires` the entry is stale, and a configured successful fetch writes a new expiry |
| `Fetcher.RepeatWithinTtl` | index.js:36-65 | after a hit or a successful fetch, a later call before the expiry returns the same sequence and changes nothing, whatever the configuration and provider do then |
| `Fetcher.FailedCallIsInvisible` | index.js:39-69 | a call that is not configured or whose `try` fails changes nothing any later call sees: whatever the later call's time, configuration and provider, its outcome is the one it would have had on the cache before the failed call, so a still-fresh entry is still served and a stale one is fetched again |
| `Fetcher.InitialIsStale` | index.js:29-37 | the initial slot is never a hit |
| `Handler.FirstOccurrenceFrom` | index.js:84-85 | the found index is an occurrence of the pattern with none before it, and `None` means there is no occurrence at all |
| `Handler.FirstOccurrence` | index.js:84-85 | the leftmost match of the marker, as a search without the `g` flag finds it |
| `Handler.FirstMarker` | index.js:84-85 | a page in which the marker occurs anywhere has a leftmost occurrence |
| `Handler.ReplaceFirst` | index.js:84-87 | with no occurrence the text is unchanged; otherwise the result is the text before the leftmost occurrence, then the replacement, then everything after it |
| `Handler.Inject` | index.js:84-87 | a template without the marker is returned unchanged |
| `Handler.InjectReplacesFirstMarker` | index.js:84-87 | only the leftmost marker is replaced by `var notion_data = <json>;`, the surrounding text (later markers included) is kept, and the assignment appears at the marker's position |
| `Handler.RenderContainsData` | index.js:82-88 | a template containing the marker renders, as index.js sends it, to a body that contains the serialised data's assignment, whenever the serialisation has no `$` pattern |
| `Handler.RenderCorrectedContainsData` | index.js:82-88 | with the corrected insertion, a template containing the marker always renders to a body containing the assignment |
| `Handler.WholePageExample` | index.js:84-87 | index.js turns `<html>var notion_data = [];</html>` into `<html>var notion_data = <json>;</html>` when `json` has no `$` pattern |
| `Handler.WholePageExampleCorrected` | index.js:84-87 | the corrected insertion turns `<html>var notion_data = [];</html>` into `<html>var notion_data = <json>;</html>` for every `json` |
| `Handler.Render` | index.js:76-88 | the response index.js sends: an unreadable template gives status 500 with body `Error loading HTML`; a readable one gives status 200, with the body unchanged if it has no marker, and equal to the literal insertion when the serialisation has no `$` pattern; `RenderAtFirstMarker` gives the body for every serialisation |
| `Handler.RenderCorrected` | index.js:76-88 | the corrected response: 500 with `Error loading HTML` for an unreadable template, otherwise 200 with the data inserted verbatim, the body unchanged when there is no marker |
| `Handler.HandleRoot` | index.js:72-89 | unreadable template: the 500 response and the cache untouched, since no fetch runs; otherwise the cache advances as in `FetchOutcome` and the response is `Render` (the as-written replacement) of the fetched items |
| `Handler.InjectAsWritten` | index.js:84-87 | the replacement as JavaScript evaluates it returns a template without the marker unchanged |
| `Handler.InjectAsWrittenAtFirstMarker` | index.js:84-87 | with a marker, for any serialisation, the result is the text before the leftmost marker, then the GetSubstitution expansion of the assignment (matched text the marker, with the text before and after the match), then the text after the marker |
| `Handler.RenderAtFirstMarker` | index.js:82-88 | the body index.js sends for a template with the marker, for any serialisation: the text around the leftmost marker is kept and the expanded assignment stands in its place |
| `Handler.Substitution` | index.js:86 | GetSubstitution for a regular expression without capture groups or named groups, as a definition: `$$`, `$&`, `` $` `` and `$'` are expanded and every other `$` (`$1`, `$<`, a trailing `$`) stays literal; its properties are the lemmas below |
| `Handler.SubstitutionNoPattern` | index.js:86 | a replacement without any of the four patterns comes back unchanged from the expansion |
| `Handler.SubstitutionLiteral` | index.js:86 | a `$`-free prefix of the replacement passes through the expansion unchanged, whatever follows it |
| `Handler.SubstitutionStep` | index.js:86 | a character other than `$` is copied by the expansion |
| `Handler.ExpandOneAmpersand` | index.js:86 | one `$&` between two `$`-free texts is replaced by the matched text |
| `Handler.AssignmentNoPattern` | index.js:86 | wrapping a serialisation without `$` pattern in `var notion_data = …;` adds none |
| `Handler.AsWrittenAgreesWithoutPattern` | index.js:84-87 | for every template, whenever the serialised data has no `$` pattern the as-written and the literal replacement give the same page |
| `Handler.LeadHasNoDollar` | index.js:86 | the fixed text `var notion_data = ` contributes no `$` |
| `Handler.TailHasNoDollar` | index.js:86 | the closing `;` contributes no `$` |
| `Handler.ExpandAmpersand` | index.js:86 | `$&` followed by `$`-free text expands to the matched text followed by that text |
| `Handler.ExpandAssignment` | index.js:86 | a `$&` in the serialised data is replaced by the matched marker text |
| `Handler.MarkerFoundAtStart` | index.js:85 | a template that is just the marker has its match at index 0 |
| `Handler.InjectOnBareMarker` | index.js:84-87 | on a template that is just the marker, the literal replacement yields exactly the assignment and the as-written one yields its expansion |
| `Handler.DollarAmpersandCounterexample` | index.js:84-87 | for data text `p + "$&" + q` the as-written page contains the marker again where the literal one keeps `$&` |

## Left out

- Express setup (`app.get` routing, `app.listen`, `res.send`) and the
  `/index.css` route. These are HTTP framework plumbing (index.js:19-25, 88,
  91-93).
- `dotenv`, reading `process.env`, and all console logging (index.js:2-8,
  15-16, 41, 67). Configuration is passed in as parameters and logging has no
  effect on the result.
- The Notion client (`new Client`, `databases.retrieve`,
  `dataSources.query`). It is a network library that is not part of this
  model. Its answers are the abstract `Upstream` value, and the data-source
  id passed to the query is not modelled.
- `fs.readFileSync` and `path.join`. Whether the template can be read is the
  `Option<string>` input.
- The exact output of `JSON.stringify(..., null, 2)`. It is the function
  parameter `serialize`.
- Interleaving of concurrent requests at `await` points. Each call of
  `FetchNotionData` is one atomic step, so two overlapping calls that both
  refetch are not modelled.
- Values of the wrong JavaScript type: a non-string `content`, a truthy
  non-boolean `checkbox`, a non-array `title`, or a select option without a
  `name`. Every field is modelled with its declared Notion type, so
  `SelectOption.name` is a `string`, and an option with an undefined name is
  not modelled.
- A response whose `results` field is missing. The query's answer always
  has a page list here.
- Handler.RenderContainsData: stated only for a serialisation without a `$`
  pattern (`NoPattern`). With one, the page index.js sends need not contain
  the assignment at all (see Findings); `RenderCorrectedContainsData` states
  the unconditional property of the corrected insertion.
- Handler.WholePageExample: stated only for `json` without a `$` pattern, for
  the same reason; `WholePageExampleCorrected` holds for every `json`.

## Findings

| source | as written | input that shows it | evidently intended | confidence | as-written member | corrected member |
|---|---|---|---|---|---|---|
| index.js:84-87 | `html.replace(regex, 'var notion_data = ' + JSON.stringify(...) + ';')` passes the data as a replacement *string*, and JavaScript expands `$&`, `` $` ``, `$'` and `$$` in it | an item whose name is `$&` (serialised text `p + "$&" + q`) on a template that is just the marker: the page gets `var notion_data = …var notion_data = [];…;` instead of the item's name | the serialised data is inserted verbatim (for example via a replacer function) | not executed; follows from the GetSubstitution rules of the ECMAScript specification | `Handler.DollarAmpersandCounterexample` (on `Handler.InjectAsWritten`) | `Handler.Inject` with `Handler.InjectReplacesFirstMarker`, and the response `Handler.RenderCorrected` with `Handler.RenderCorrectedContainsData` (`Handler.Render` and `Handler.HandleRoot` model the code as written) |
