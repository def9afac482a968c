# stac-fastapi-geoparquet, modelled in Dafny

This project models the core of stac-fastapi-geoparquet. That server is a STAC API backend whose items live in
geoparquet files. A registry maps each collection id to its collection record and to the href of its geoparquet
file. A search is answered by querying the file of each requested collection in turn and federating the rows
into one offset-paginated page.

The model covers:

- **Search parameters** (`search.py`, module `Search`): the page-size cap `crop` and `MAX_LIMIT`, `str2list`,
  `str2bbox` with its 4-or-6 rule (the bbox arities of section 5 of RFC 7946), and the collection, ids and bbox
  converters.
- **Request translation** (`client.py`, module `Translate`): the key-by-key rewriting of `search_dict`. This
  covers the filter renaming, the `fields` split into include and exclude, the refusal of an unexpected
  `fields` shape, and the `sortby` rule.
- **Links** (`client.py`, module `Links`): `item_with_links`, `collection_with_links` and the root, self and next
  links of a search response, for GET and for POST.
- **The federated pager** (`client.py`, module `Pager`): the `while collections:` loop, its stop test, the resume
  offset and the next-page cursor.
- **The endpoints** (`client.py`, module `Client`): `search`, `get_search`, `post_search`, `item_collection`,
  `get_item`, `get_collection` and `all_collections`.
- **The per-request registry** (`api.py`, module `Api`): the loop of `collections_hot_reload_middleware` and
  `collections_from_geoparquet_href`.
- **Start-up from files** (`__init__.py`, module `Startup`): the href list built from the configured location and
  TOML file, and the duplicate-checked registry of `lifespan`.

Items are values (`Stac.Item`). Collections are objects (`Stac.Collection`), because the server rewrites their
`links` and `assets` in place. Python's insertion-ordered `dict` is `Common.Dict`. Everything the core takes from
outside is a function parameter:

- the DuckDB store (`Pager.Store`);
- `get_collections`;
- `float` and `str` on numbers, and `json.loads`;
- `make_absolute_href`;
- `Path.parent` and `Path.resolve`.

URLs stay symbolic (`Stac.Href`). Each `for` or `while` loop of the source is a method, proved equal to a function
or state that specifies it. The generator expressions that parse bbox numbers (search.py line 42 and client.py
line 89) are the recursive function `Search.ParseNumbers`. The properties the source promises are lemmas about
those functions.

The pager is specified by `Pager.Drain`, which is parameterised by its stop test (`Pager.StopRule`):

- `AsWritten` is the test at client.py line 218.
- `Intended` is the corrected test (see "## Findings").

`Pager.Paginate` is the loop itself and is proved for both tests. Every endpoint (`Client.Search`,
`Client.GetSearch`, `Client.PostSearch`, `Client.ItemCollection`, `Client.GetItem`) takes the stop test as its
`rule` argument: with `Pager.AsWritten` it is the endpoint as the source has it, with `Pager.Intended` the
corrected one. The bounds and cursor lemmas are proved for both tests; the no-loss lemmas for the corrected one.

## Model

| member | source | states |
|---|---|---|
| Search.Crop | src/stac_fastapi/geoparquet/search.py:16-23 | the result never exceeds MAX_LIMIT (10 000); it is the input when the input is at most 10 000, and 10 000 otherwise |
| Search.CropIdempotent | src/stac_fastapi/geoparquet/search.py:19-23 | cropping twice is cropping once |
| Search.ValidateLimit | src/stac_fastapi/geoparquet/search.py:122 | a limit is accepted iff it is positive; an accepted limit lies in 1..10 000 and is unchanged when at most 10 000 |
| Search.Split | src/stac_fastapi/geoparquet/search.py:28 | `split(",")` yields at least one piece, and no piece contains a comma |
| Search.JoinSplit | src/stac_fastapi/geoparquet/search.py:26-30 | joining the pieces with "," gives back the input |
| Search.SplitJoin | src/stac_fastapi/geoparquet/search.py:26-30 | splitting a comma-joined list of comma-free pieces gives back the list |
| Search.Str2List | src/stac_fastapi/geoparquet/search.py:26-30 | None exactly on the empty string; otherwise comma-free pieces whose comma-join is the input |
| Search.ParseNumbers | src/stac_fastapi/geoparquet/search.py:41-42 | succeeds iff every token parses as a number; then it has one number per token, in order |
| Search.Str2BBox | src/stac_fastapi/geoparquet/search.py:33-46 | None iff the input is empty; HTTP 400 for a piece count other than 4 or 6, or for a piece that is not a number; otherwise the parsed numbers, 4 or 6 of them |
| Search.CollectionConverter | src/stac_fastapi/geoparquet/search.py:49-63 | None iff the value is absent or empty; otherwise comma-free pieces whose comma-join is the value, which with `SplitJoin` makes them exactly the `split(",")` of the value |
| Search.IdsConverter | src/stac_fastapi/geoparquet/search.py:66-80 | None iff the value is absent or empty; otherwise comma-free pieces whose comma-join is the value, which with `SplitJoin` makes them exactly the `split(",")` of the value |
| Search.BBoxConverter | src/stac_fastapi/geoparquet/search.py:83-97 | an absent or empty value gives None; any other value gives exactly what str2bbox gives |
| Search.ListRoundTrip | src/stac_fastapi/geoparquet/search.py:60-61 | a comma-joined list of non-empty comma-free ids converts back to the same list |
| Search.BBoxRoundTrip | src/stac_fastapi/geoparquet/search.py:33-44 | a 4- or 6-number bbox, rendered and comma-joined, parses back to itself when rendering and parsing a number agree |
| Translate.IncludedMembers | src/stac_fastapi/geoparquet/client.py:179-183 | the include list holds exactly the entries without a leading `-` |
| Translate.ExcludedMembers | src/stac_fastapi/geoparquet/client.py:179-181 | the exclude list holds exactly the entries with a leading `-`, and the `-` is kept |
| Translate.FieldsPartition | src/stac_fastapi/geoparquet/client.py:176-184 | every `fields` entry lands in exactly one of include and exclude, as often as it occurs (as multisets) |
| Translate.FieldsCount | src/stac_fastapi/geoparquet/client.py:176-184 | the include and exclude lists together are as long as `fields` |
| Translate.SplitFields | src/stac_fastapi/geoparquet/client.py:176-184 | the loop's two lists are the include and exclude lists, in entry order |
| Translate.Translate | src/stac_fastapi/geoparquet/client.py:164-195 | HTTP 400 iff `fields` is a truthy value that is neither list nor dict. Otherwise: the plain keys are carried over; `filter_crs` is dropped; `filter` is present iff a truthy `filter_expr` was; `filter-lang` appears only alongside `filter`; include and exclude appear together iff `fields` is truthy (from the list split, or from the dict entries defaulting to []); `sortby` appears iff it was truthy |
| Translate.TranslateRequest | src/stac_fastapi/geoparquet/client.py:164-195 | the key-by-key rewriting computes exactly `Translate` |
| Links.KeepUnreservedMembers | src/stac_fastapi/geoparquet/client.py:318-320 | a link is kept iff it was on the item and its relation is not root, parent, collection or self |
| Links.KeepUnreservedIdentity | src/stac_fastapi/geoparquet/client.py:318-320 | links with no reserved relation are all kept, in order |
| Links.Decorated | src/stac_fastapi/geoparquet/client.py:292-322 | the item is tagged with its collection. Its links are root, then collection and parent (same href), then self exactly when the item has a truthy id, then its own unreserved links in order. Id and payload are unchanged |
| Links.DecoratedIdempotent | src/stac_fastapi/geoparquet/client.py:292-322 | decorating an already decorated item for the same collection changes nothing |
| Links.ItemWithLinks | src/stac_fastapi/geoparquet/client.py:292-322 | the appending loop yields exactly `Decorated` |
| Links.CollectionWithLinks | src/stac_fastapi/geoparquet/client.py:325-351 | the collection's links become exactly root, parent (landing page), self and items, in that order; its assets are untouched |
| Links.ResponseLinks | src/stac_fastapi/geoparquet/client.py:236-284 | root first, then self carrying the method, then a next link iff there is a cursor. GET: self has no body, and next is the URL with the cursor as its query. POST: self carries the request body, and next is the URL with the cursor as its body |
| Links.NextQueryCollectionsRoundTrip | src/stac_fastapi/geoparquet/client.py:252-254 | the comma-joined `collections` of a GET next link converts back to the queued ids |
| Links.NextQueryBBoxRoundTrip | src/stac_fastapi/geoparquet/client.py:255-256 | the comma-joined `bbox` of a GET next link converts back to the bbox |
| Pager.HrefOf | src/stac_fastapi/geoparquet/client.py:202 | an id has a store iff the registry maps it to a non-empty href, and then it is that href |
| Pager.StoreQuery | src/stac_fastapi/geoparquet/client.py:203-210 | a store is queried with the search body, except for an empty collection filter and the current limit and offset |
| Pager.DecorateAll | src/stac_fastapi/geoparquet/client.py:212-217 | one decorated item per row, in store order |
| Pager.DecorateRows | src/stac_fastapi/geoparquet/client.py:212-217 | the inner loop appends exactly `DecorateAll` of the store's rows |
| Pager.Paginate | src/stac_fastapi/geoparquet/client.py:197-224 | the loop that pops, queries, re-queues with the advanced offset or moves on with a smaller budget ends in exactly the state `Drain` specifies |
| Pager.RequestedLimit | src/stac_fastapi/geoparquet/client.py:228-230 | `search.limit or DEFAULT_LIMIT`: the limit when it is non-zero, otherwise 10 000 |
| Pager.PageLimit | src/stac_fastapi/geoparquet/client.py:197 | the loop's budget is the body's limit, or 10 000 when it has none |
| Pager.Start | src/stac_fastapi/geoparquet/client.py:197-199 | the loop starts with the whole queue, the budget, the offset (0 when absent) and no items |
| Pager.NextSearch | src/stac_fastapi/geoparquet/client.py:226-234 | a cursor exists iff ids remain queued and the page holds at least the requested limit. It is the body with that limit, the resume offset and the remaining queue |
| Pager.DrainBound | src/stac_fastapi/geoparquet/client.py:197-224 | with stores that respect their limit, the loop only appends, and it takes at most the budget it started with |
| Pager.DrainSkipsUnresolved | src/stac_fastapi/geoparquet/client.py:200-202 | ids without an href at the front of the queue contribute no items and are not re-queued |
| Pager.DrainResume | src/stac_fastapi/geoparquet/client.py:200-224 | the loop ends with a suffix of the queue. If it is non-empty, its head has an href, and the resume offset is the head's starting offset plus the rows its store returned |
| Pager.DrainTagsFromQueue | src/stac_fastapi/geoparquet/client.py:200-217 | every item taken is tagged with an id from the queue |
| Pager.NextImpliesFullPage | src/stac_fastapi/geoparquet/client.py:226-232 | with stores that respect their limit, a cursor means the page holds exactly the requested limit |
| Pager.DrainTakesPrefix | src/stac_fastapi/geoparquet/client.py:197-224 | on stores serving slices of fixed files, the items taken are a prefix of the rows still to come, and the resume point is where the rest begins; the corrected test stops only with a full page |
| Pager.IntendedNextOrDone | src/stac_fastapi/geoparquet/client.py:218-234 | with the corrected stop test on slice-serving stores, no row is lost: without a cursor the page is every remaining row, and with one the page plus the rows from the cursor are every remaining row |
| Pager.StopShortCounterexample | src/stac_fastapi/geoparquet/client.py:218-234 | with the test as written, any three collections `a`, `b`, `c` whose files hold one row each, and limit 3, give two items, `b`, `c` still queued and no cursor, although three rows remain |
| Client.InitialQueue | src/stac_fastapi/geoparquet/client.py:159-162 | the queue is the requested ids, or every registry id in order when none is requested |
| Client.SearchResult | src/stac_fastapi/geoparquet/client.py:148-290 | HTTP 400 iff translation refuses `fields`; otherwise 2 or 3 links, root then self with the request method, and every feature tagged with a queued id |
| Client.Search | src/stac_fastapi/geoparquet/client.py:148-290 | the search steps, with the stop test `rule`, compute exactly `SearchResult` for that test |
| Client.SearchPageBound | src/stac_fastapi/geoparquet/client.py:197-234 | with stores that respect their limit, a page never holds more than the requested limit (10 000 by default), and a next link comes only with a page of exactly the requested limit |
| Client.SearchNextCursor | src/stac_fastapi/geoparquet/client.py:228-234 | a POST next link carries the requested limit, the resume offset and the non-empty remaining queue |
| Client.SearchComplete | src/stac_fastapi/geoparquet/client.py:197-234 | on slice-serving stores, a response without a next link holds every row the query reaches, and one with a next link holds the first rows, its cursor resuming at exactly the rest |
| Client.StripBrackets | src/stac_fastapi/geoparquet/client.py:84-87 | one leading `[` is dropped, then one trailing `]` |
| Client.StripBracketsWrapped | src/stac_fastapi/geoparquet/client.py:84-87 | `[` + text + `]` loses exactly its brackets |
| Client.StripBracketsBare | src/stac_fastapi/geoparquet/client.py:84-87 | text with no bracket at either end is unchanged |
| Client.BBoxFromArg | src/stac_fastapi/geoparquet/client.py:83-91 | a text bbox is accepted iff every comma-split token of the stripped text parses, giving one number per token; otherwise HTTP 400. A list or an absent bbox passes through |
| Client.BBoxTextRoundTrip | src/stac_fastapi/geoparquet/client.py:83-91 | a bbox written as `[x1,…,xn]` reads back as the same numbers |
| Client.GetSearchRequest | src/stac_fastapi/geoparquet/client.py:78-110 | fails iff the bbox is refused. `intersects` is decoded only when non-empty; the other parameters are passed through, and so are the extension parameters that arrive as keyword arguments (offset, filter, filter language and CRS, sort, and `fields` as a list) |
| Client.GetSearch | src/stac_fastapi/geoparquet/client.py:66-110 | a refused bbox is returned as the error; otherwise the search of the built request with the stop test `rule`, linked from the search route |
| Client.GetNextResumes | src/stac_fastapi/geoparquet/client.py:104-110 | a GET request read back from its own next link (ids non-empty and comma-free) starts at the cursor's queue, offset and limit |
| Client.PostSearch | src/stac_fastapi/geoparquet/client.py:137-146 | the search of the decoded body with the stop test `rule`, linked from the search route |
| Client.ItemCollectionRequest | src/stac_fastapi/geoparquet/client.py:122-129 | one collection, the given bbox, datetime and offset, and the limit capped at 10 000 |
| Client.ItemCollection | src/stac_fastapi/geoparquet/client.py:112-135 | the search of that request with the stop test `rule`, linked from the collection's items route |
| Client.ItemCollectionTagged | src/stac_fastapi/geoparquet/client.py:112-135 | under either stop test, a collection's item list never fails, and every item in it belongs to that collection |
| Client.GetItem | src/stac_fastapi/geoparquet/client.py:53-64 | the item iff the search of that id in that collection returns exactly one feature, and that feature is tagged with the collection; otherwise not found |
| Client.GetCollection | src/stac_fastapi/geoparquet/client.py:45-51 | not found for an unknown id; otherwise the registered collection, with its links rewritten and its assets kept |
| Client.AllCollections | src/stac_fastapi/geoparquet/client.py:24-43 | every registered collection in registry order, each with its links rewritten, then the root and self links |
| Api.ParquetCount | src/stac_fastapi/geoparquet/api.py:95-96 | zero iff no asset has the media type `application/vnd.apache.parquet` |
| Api.FirstParquetHref | src/stac_fastapi/geoparquet/api.py:95-104 | the recorded href belongs to an asset of the geoparquet media type |
| Api.AddParquetHref | src/stac_fastapi/geoparquet/api.py:94-104 | the asset loop fails iff two assets have the geoparquet media type; it records an href iff there is exactly one |
| Api.Accept | src/stac_fastapi/geoparquet/api.py:88-106 | one pass of the loop refuses a collection iff its id was accepted before or it has two geoparquet assets, with the repeated-id error first; otherwise the registry grows by exactly that collection and its href |
| Api.BuildRegistry | src/stac_fastapi/geoparquet/api.py:85-106 | accepted iff no id repeats and no collection has two geoparquet assets. A refusal is HTTP 500 at the first offending collection: a repeated id first, then the second asset. On success each collection is stored under its own id in list order; an href is recorded iff the collection has exactly one geoparquet asset, made absolute; the href keys are the ids of those collections in list order (the default search queue), and a subset of the collection keys |
| Api.DataAssetsResolve | src/stac_fastapi/geoparquet/api.py:181-183 | the `data` asset given to each collection makes the registry record that very href |
| Api.CollectionsFromGeoparquetHref | src/stac_fastapi/geoparquet/api.py:177-184 | every collection returned has no links and exactly one asset, `data`, with the file's href and the geoparquet media type |
| Startup.ResolveHrefs | src/stac_fastapi/geoparquet/__init__.py:51-65 | a location not ending in `.toml` is the one href. Otherwise the TOML hrefs are kept in order: absolute ones verbatim, relative ones joined to the TOML file's directory and resolved |
| Startup.BuildFromFiles | src/stac_fastapi/geoparquet/__init__.py:67-81 | accepted iff no collection id is produced twice across all files; a refusal is a ValueError at the first repeated id. On success every id maps to its own record and to the file it came from, in reading order |
| Startup.RegisterFile | src/stac_fastapi/geoparquet/__init__.py:73-81 | one file's collections extend the registry, or the first repeated id is reported |
| Startup.HrefIsSourceFile | src/stac_fastapi/geoparquet/__init__.py:72-81 | each accepted id maps to the listed file it was read from |

## Left out

- The DuckDB store (`DuckdbClient.search` and `get_collections`): it is a parameter (`Pager.Store`, the `read` of
  `Startup`). The loop is proved for any store. The bounds assume only that a store returns at most the limit it is
  given (`Pager.Bounded`). The no-loss lemmas assume a store that serves slices of fixed files (`Pager.SliceStore`).
- Collection loading and caching (`get_cached_collections`, obstore I/O, the asyncio lock and refresher, and the
  app lifespans in `api.py`): I/O and concurrency. `Api.BuildRegistry` takes the loaded list as its input.
- URL rendering (`request.url_for`, `str(request.url)`, `urlencode`): links carry the symbolic `Stac.Href`.
- `make_absolute_href`, `Path.parent` and `Path.resolve`, and the TOML parser: these are function parameters.
  `Startup.IsAbsolute` is the POSIX rule (a leading `/`); Windows paths are not modelled.
- Floating point: `float()` on bbox text and `str()` on bbox numbers are the parameters `parse` and `render`.
  Numbers are `real`.
- `json.loads` of `intersects` is the parameter `decode`. Its failure is not modelled.
- RFC 3339 datetime parsing (`str_to_interval`): the datetime is passed through as text.
- Client.GetSearchRequest: the pydantic validation of `BaseSearchPostRequest` is left out. That validation would
  refuse an ill-formed request with HTTP 400 ("invalid request"), for instance a bbox of the wrong length, so the
  model never produces that error.
- Client.ItemCollectionRequest: the request model's refusal of a non-positive limit is left out; only its cap is
  modelled.
- Client.PostSearch: the body is taken as already decoded. Its limit cap is `Search.ValidateLimit`.
- Client.Search: keyword arguments merged into `search_dict` (`search_dict.update(**kwargs)`) are modelled only
  for GET, where they are the extension parameters (`Client.GetExtensions`). A keyword argument given as `None`
  is treated as an absent key.
- Links.ItemWithLinks: an item is a value. The source updates the store's row dict in place; no other reference
  to that dict exists, so nothing observable is lost.
- Client.GetCollection: the truth test on the stored collection is taken as presence of the id. A stored
  collection always has an `id` key, so it is never an empty (falsy) dict.
- Api.BuildRegistry: a collection without an `assets` key, which raises `KeyError` in the source, is not modelled.
  Every collection has an (ordered) asset list.
- Global sorting across collections: the source never sorts; items keep store order per collection.

## Findings

| source | as written | input that shows it | evidently intended | confidence | as-written member | corrected member |
|---|---|---|---|---|---|---|
| src/stac_fastapi/geoparquet/client.py:218 | `len(items) >= limit` compares every item taken so far with a budget from which the earlier collections' rows were already subtracted (line 223), so the rows of earlier collections count twice | collections `a`, `b`, `c` with one row each, limit 3. After `a` the budget is 2. After `b`, 2 items >= 2, so the loop stops with `b`, `c` still queued. The cursor test `3 <= 2` fails, so the response holds 2 items and no next link, and the row of `c` cannot be reached | stop when the rows of the current store reach the remaining budget (`len(collection_items) >= limit`), that is when the page reaches the original limit | not executed; the counterexample is proved on the model | Pager.StopShortCounterexample | Pager.IntendedNextOrDone |
