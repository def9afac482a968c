/** The endpoints of the STAC client: search (GET and POST), the item list
    of one collection, one item, one collection and all collections. */
module Client {
  import opened Common
  import opened Stac
  import Params = Search
  import Translate
  import Links
  import Pager

  /** What a request hands the client: its HTTP method, the id-to-href
      registry of the current request state, the store, and the foreign
      conversions (Python's `str` and `float` on numbers, `json.loads`). */
  datatype Context = Context(
    verb: HttpMethod,
    hrefs: Dict<string>,
    store: Pager.Store,
    render: real -> string,
    parse: string -> Option<real>,
    decode: string -> Json)

  /** A GeoJSON feature collection: the items of one page and its links. */
  datatype FeatureCollection = FeatureCollection(features: seq<Item>, links: seq<Link>)

  /** The queue a search starts from: the requested ids, or every id of the
      registry in its order when the request names none. */
  function InitialQueue(requested: Option<seq<string>>, hrefs: Dict<string>): (q: seq<string>)
    ensures requested.Some? && requested.value != [] ==> q == requested.value
    ensures requested.None? || requested.value == [] ==> q == hrefs.keys
  {
    if requested.Some? && requested.value != [] then requested.value else hrefs.keys
  }

  /** The response of `Client.search` for a decoded request sent to `url`,
      with the pager's stop test `rule`: `Pager.AsWritten` is the search as
      the source has it, `Pager.Intended` the corrected one. */
  function SearchResult(rule: Pager.StopRule, ctx: Context, url: Href, req: Translate.SearchRequest): (r: Result<FeatureCollection, Error>)
    ensures r.Err? <==> Translate.Translate(req).Err?
    ensures r.Err? ==> r.error == HttpError(400, UnexpectedFieldsType)
    ensures r.Ok? ==> 2 <= |r.value.links| <= 3 && r.value.links[0] == Links.RootLink()
    ensures r.Ok? ==> r.value.links[1].rel == "self" && r.value.links[1].verb == Some(ctx.verb)
    ensures r.Ok? ==> forall i :: 0 <= i < |r.value.features| ==>
      r.value.features[i].collection.Some? &&
      r.value.features[i].collection.value in InitialQueue(req.collections, ctx.hrefs)
  {
    match Translate.Translate(req)
    case Err(e) => Err(e)
    case Ok(body) =>
      var env := Pager.Env(ctx.hrefs, ctx.store, body);
      var start := Pager.Start(body, InitialQueue(req.collections, ctx.hrefs));
      var s := Pager.Drain(rule, env, start);
      Pager.DrainTagsFromQueue(rule, env, start);
      var next := Pager.NextSearch(req.limit, body, s);
      Ok(FeatureCollection(s.items, Links.ResponseLinks(ctx.verb, url, body, next, ctx.render)))
  }

  /** `Client.search`: translate, drain the queue, decide the cursor, link.
      The loop breaks by the stop test `rule` (see `Pager.StopRule`). */
  method Search(rule: Pager.StopRule, ctx: Context, url: Href, req: Translate.SearchRequest)
    returns (r: Result<FeatureCollection, Error>)
    ensures r == SearchResult(rule, ctx, url, req)
  {
    var queue := if req.collections.Some? && req.collections.value != [] then req.collections.value else ctx.hrefs.keys;
    var translated := Translate.TranslateRequest(req);
    if translated.Err? {
      return Err(translated.error);
    }
    var body := translated.value;
    var limit := if body.limit.Some? then body.limit.value else Pager.DefaultLimit;
    var offset := if body.offset.Some? then body.offset.value else 0;
    var s := Pager.Paginate(rule, Pager.Env(ctx.hrefs, ctx.store, body), queue, limit, offset);
    var next := Pager.NextSearch(req.limit, body, s);
    var links := Links.ResponseLinks(ctx.verb, url, body, next, ctx.render);
    return Ok(FeatureCollection(s.items, links));
  }

  /** With stores that respect their limit, a page never holds more than the
      requested limit (10 000 when none is given), and a next link is only
      offered on a page holding exactly the requested limit. */
  lemma SearchPageBound(rule: Pager.StopRule, ctx: Context, url: Href, req: Translate.SearchRequest)
    requires Pager.Bounded(ctx.store)
    ensures var r := SearchResult(rule, ctx, url, req);
      r.Ok? ==> |r.value.features| <= req.limit.GetOr(Pager.DefaultLimit)
    ensures var r := SearchResult(rule, ctx, url, req);
      r.Ok? && |r.value.links| == 3 ==>
        r.value.links[2].rel == "next" && |r.value.features| == Pager.RequestedLimit(req.limit)
  {
    if Translate.Translate(req).Ok? {
      var body := Translate.Translate(req).value;
      var env := Pager.Env(ctx.hrefs, ctx.store, body);
      var queue := InitialQueue(req.collections, ctx.hrefs);
      Pager.DrainBound(rule, env, Pager.Start(body, queue));
      Pager.NextImpliesFullPage(rule, env, body, queue);
    }
  }

  /** A next link resumes the search: it asks for the same limit, at the
      offset and over the ids the loop stopped at, and the ids are the ones
      still queued. */
  lemma SearchNextCursor(rule: Pager.StopRule, ctx: Context, url: Href, req: Translate.SearchRequest)
    ensures var r := SearchResult(rule, ctx, url, req);
      r.Ok? && |r.value.links| == 3 && ctx.verb == Post ==>
        var body := Translate.Translate(req).value;
        var s := Pager.Drain(rule, Pager.Env(ctx.hrefs, ctx.store, body),
                             Pager.Start(body, InitialQueue(req.collections, ctx.hrefs)));
        && r.value.links[2].body.Some?
        && r.value.links[2].body.value.limit == Some(Pager.RequestedLimit(req.limit))
        && r.value.links[2].body.value.offset == Some(s.offset)
        && r.value.links[2].body.value.collections == Some(s.queue)
        && s.queue != []
  {
  }

  /** On stores that serve slices of fixed files, no row is lost between
      pages: a response without a next link holds every row the query
      reaches, and one with a next link holds the first rows, the cursor
      resuming exactly at the rest. */
  lemma SearchComplete(ctx: Context, url: Href, req: Translate.SearchRequest, tables: map<string, seq<Item>>)
    requires ctx.store == Pager.SliceStore(tables) && req.limit != Some(0)
    ensures var r := SearchResult(Pager.Intended, ctx, url, req);
      var all := Pager.Remaining(ctx.hrefs, tables, InitialQueue(req.collections, ctx.hrefs), req.offset.GetOr(0));
      && (r.Ok? && |r.value.links| == 2 ==> r.value.features == all)
      && (r.Ok? && |r.value.links| == 3 ==>
            var body := Translate.Translate(req).value;
            var s := Pager.Drain(Pager.Intended, Pager.Env(ctx.hrefs, ctx.store, body),
                                 Pager.Start(body, InitialQueue(req.collections, ctx.hrefs)));
            all == r.value.features + Pager.Remaining(ctx.hrefs, tables, s.queue, s.offset))
  {
    if Translate.Translate(req).Ok? {
      var body := Translate.Translate(req).value;
      Pager.IntendedNextOrDone(ctx.hrefs, tables, body, InitialQueue(req.collections, ctx.hrefs));
    }
  }

  // ---------------------------------------------------------------------
  // GET search

  /** The `bbox` argument of a GET search: absent, already a list of
      numbers, or the raw text of the query string. */
  datatype BBoxArg = NoBBox | BBoxValues(values: seq<real>) | BBoxText(text: string)

  /** Drops one leading `[`, then one trailing `]`. */
  function StripBrackets(text: string): (r: string)
    ensures |text| > 0 && text[0] == '[' ==> r == StripTrailing(text[1..])
    ensures (|text| == 0 || text[0] != '[') ==> r == StripTrailing(text)
  {
    StripTrailing(if |text| > 0 && text[0] == '[' then text[1..] else text)
  }

  function StripTrailing(text: string): (r: string)
    ensures |text| > 0 && text[|text| - 1] == ']' ==> r == text[..|text| - 1]
    ensures (|text| == 0 || text[|text| - 1] != ']') ==> r == text
  {
    if |text| > 0 && text[|text| - 1] == ']' then text[..|text| - 1] else text
  }

  /** A bracketed list loses exactly its brackets. */
  lemma StripBracketsWrapped(inner: string)
    ensures StripBrackets("[" + inner + "]") == inner
  {
    var text := "[" + inner + "]";
    assert text[1..] == inner + "]";
    assert (inner + "]")[..|inner|] == inner;
  }

  /** Text without brackets at either end is left alone. */
  lemma StripBracketsBare(text: string)
    requires |text| == 0 || (text[0] != '[' && text[|text| - 1] != ']')
    ensures StripBrackets(text) == text
  {
  }

  /** The bbox of a GET search: a text bbox is stripped of its brackets,
      split at commas and parsed number by number; any token that is not a
      number is refused with HTTP 400. */
  function BBoxFromArg(bbox: BBoxArg, parse: string -> Option<real>): (r: Result<Option<seq<real>>, Error>)
    ensures bbox.NoBBox? ==> r == Ok(None)
    ensures bbox.BBoxValues? ==> r == Ok(Some(bbox.values))
    ensures bbox.BBoxText? ==>
      var tokens := Params.Split(StripBrackets(bbox.text));
      && (r.Ok? <==> forall i :: 0 <= i < |tokens| ==> parse(tokens[i]).Some?)
      && (r.Err? ==> r.error == HttpError(400, InvalidBBox))
      && (r.Ok? ==> r.value.Some? && |r.value.value| == |tokens|
                    && forall i :: 0 <= i < |tokens| ==> parse(tokens[i]) == Some(r.value.value[i]))
  {
    match bbox
    case NoBBox => Ok(None)
    case BBoxValues(values) => Ok(Some(values))
    case BBoxText(text) =>
      var tokens := Params.Split(StripBrackets(text));
      var parsed := Params.ParseNumbers(tokens, parse);
      if parsed.None? then
        assert tokens == Params.Split(StripBrackets(bbox.text));
        assert !(forall i :: 0 <= i < |tokens| ==> parse(tokens[i]).Some?);
        Err(HttpError(400, InvalidBBox))
      else Ok(parsed)
  }

  /** A bbox written as `[x1,y1,x2,y2]` is read back as the same numbers,
      when rendering and parsing a number agree. */
  lemma BBoxTextRoundTrip(bbox: seq<real>, render: real -> string, parse: string -> Option<real>)
    requires forall i :: 0 <= i < |bbox| ==> ',' !in render(bbox[i]) && parse(render(bbox[i])) == Some(bbox[i])
    requires |bbox| >= 1
    ensures BBoxFromArg(BBoxText("[" + Params.Join(Params.MapRender(bbox, render)) + "]"), parse) == Ok(Some(bbox))
  {
    var parts := Params.MapRender(bbox, render);
    StripBracketsWrapped(Params.Join(parts));
    Params.SplitJoin(parts);
    var r := Params.ParseNumbers(parts, parse);
    assert r.Some?;
    assert r.value == bbox;
  }

  /** The GET parameters of the search extensions (offset pagination,
      filter, fields, sort). They reach `Client.search` as keyword arguments
      and are merged into `search_dict` there; a GET `fields` value is the
      comma-split list of its text. */
  datatype GetExtensions = GetExtensions(
    offset: Option<nat>,
    filterExpr: Option<Json>,
    filterLang: Option<string>,
    filterCrs: Option<string>,
    fields: Option<seq<string>>,
    sortby: Option<Json>)

  /** A GET request that uses none of the extensions. */
  const NoExtensions := GetExtensions(None, None, None, None, None, None)

  /** The request `get_search` builds, with the extension parameters merged
      in: an `intersects` text is decoded only when non-empty. */
  function GetSearchRequest(ctx: Context, collections: Option<seq<string>>, ids: Option<seq<string>>, bbox: BBoxArg,
                            intersects: Option<string>, datetime: Option<string>, limit: Option<nat>,
                            ext: GetExtensions)
    : (r: Result<Translate.SearchRequest, Error>)
    ensures r.Err? <==> BBoxFromArg(bbox, ctx.parse).Err?
    ensures r.Err? ==> r.error == HttpError(400, InvalidBBox)
    ensures r.Ok? ==>
      && r.value.collections == collections && r.value.ids == ids
      && r.value.bbox == BBoxFromArg(bbox, ctx.parse).value
      && (r.value.intersects.Some? <==> intersects.Some? && intersects.value != "")
      && (r.value.intersects.Some? ==> r.value.intersects.value == ctx.decode(intersects.value))
      && r.value.datetime == datetime && r.value.limit == limit && r.value.offset == ext.offset
      && r.value.filterExpr == ext.filterExpr && r.value.filterLang == ext.filterLang
      && r.value.filterCrs == ext.filterCrs && r.value.sortby == ext.sortby
      && (r.value.fields.Some? <==> ext.fields.Some?)
      && (ext.fields.Some? ==> r.value.fields.value == Translate.FieldsList(ext.fields.value))
  {
    var decoded := if intersects.Some? && intersects.value != "" then Some(ctx.decode(intersects.value)) else None;
    match BBoxFromArg(bbox, ctx.parse)
    case Err(e) => Err(e)
    case Ok(values) =>
      var fields := if ext.fields.Some? then Some(Translate.FieldsList(ext.fields.value)) else None;
      Ok(Translate.SearchRequest(collections, ids, values, decoded, datetime, limit, ext.offset,
                                 ext.filterExpr, ext.filterLang, ext.filterCrs, fields, ext.sortby))
  }

  /** `Client.get_search`: builds the request, then searches from the
      search route with the stop test `rule`. */
  method GetSearch(rule: Pager.StopRule, ctx: Context, collections: Option<seq<string>>, ids: Option<seq<string>>,
                   bbox: BBoxArg, intersects: Option<string>, datetime: Option<string>, limit: Option<nat>,
                   ext: GetExtensions)
    returns (r: Result<FeatureCollection, Error>)
    ensures var req := GetSearchRequest(ctx, collections, ids, bbox, intersects, datetime, limit, ext);
      && (req.Err? ==> r == Err(req.error))
      && (req.Ok? ==> r == SearchResult(rule, ctx, UrlFor(SearchRoute), req.value))
  {
    var req := GetSearchRequest(ctx, collections, ids, bbox, intersects, datetime, limit, ext);
    if req.Err? {
      return Err(req.error);
    }
    r := Search(rule, ctx, UrlFor(SearchRoute), req.value);
  }

  /** A GET search can follow its own next link: the request read back from
      the link's query string (ids non-empty and comma-free) starts from the
      queue, the offset and the limit of the cursor. */
  lemma GetNextResumes(ctx: Context, next: SearchBody, ids: Option<seq<string>>, bbox: BBoxArg,
                       intersects: Option<string>, datetime: Option<string>, ext: GetExtensions)
    requires next.collections.Some? && |next.collections.value| >= 1
    requires forall i :: 0 <= i < |next.collections.value| ==>
      next.collections.value[i] != "" && ',' !in next.collections.value[i]
    ensures var q := Links.NextQuery(next, ctx.render);
      var req := GetSearchRequest(ctx, Params.CollectionConverter(Some(q.collections)), ids, bbox, intersects,
                                  datetime, q.params.limit, ext.(offset := q.params.offset));
      req.Ok? ==>
        && InitialQueue(req.value.collections, ctx.hrefs) == next.collections.value
        && Pager.Start(Translate.Translate(req.value).value, next.collections.value).offset == next.offset.GetOr(0)
        && req.value.limit == next.limit
  {
    Links.NextQueryCollectionsRoundTrip(next, ctx.render);
  }

  /** `Client.post_search`: the decoded body, searched from the search route
      with the stop test `rule`. */
  method PostSearch(rule: Pager.StopRule, ctx: Context, req: Translate.SearchRequest)
    returns (r: Result<FeatureCollection, Error>)
    ensures r == SearchResult(rule, ctx, UrlFor(SearchRoute), req)
  {
    r := Search(rule, ctx, UrlFor(SearchRoute), req);
  }

  /** The request `item_collection` builds: one collection, with the given
      bbox, datetime and offset, and the limit capped by the POST request
      model. */
  function ItemCollectionRequest(collectionId: string, bbox: Option<seq<real>>, datetime: Option<string>,
                                 limit: nat, offset: Option<nat>): (r: Translate.SearchRequest)
    ensures r.collections == Some([collectionId]) && r.ids == None && r.bbox == bbox
    ensures r.datetime == datetime && r.offset == offset
    ensures r.limit.Some? && r.limit.value <= Params.MaxLimit
    ensures limit <= Params.MaxLimit ==> r.limit == Some(limit)
    ensures r.fields == None && r.filterExpr == None && r.sortby == None
  {
    Translate.SearchRequest(Some([collectionId]), None, bbox, None, datetime, Some(Params.Crop(limit)), offset,
                            None, None, None, None, None)
  }

  /** `Client.item_collection`: a search of one collection, linked from the
      collection's items route. */
  method ItemCollection(rule: Pager.StopRule, ctx: Context, collectionId: string, bbox: Option<seq<real>>,
                        datetime: Option<string>, limit: nat, offset: Option<nat>)
    returns (r: Result<FeatureCollection, Error>)
    ensures r == SearchResult(rule, ctx, UrlFor(GetItemCollectionRoute(collectionId)),
                              ItemCollectionRequest(collectionId, bbox, datetime, limit, offset))
  {
    var req := ItemCollectionRequest(collectionId, bbox, datetime, limit, offset);
    r := Search(rule, ctx, UrlFor(GetItemCollectionRoute(collectionId)), req);
  }

  /** Every item of a collection's item list belongs to that collection,
      and the list never fails. */
  lemma ItemCollectionTagged(rule: Pager.StopRule, ctx: Context, collectionId: string, bbox: Option<seq<real>>,
                             datetime: Option<string>, limit: nat, offset: Option<nat>)
    ensures var r := SearchResult(rule, ctx, UrlFor(GetItemCollectionRoute(collectionId)),
                                  ItemCollectionRequest(collectionId, bbox, datetime, limit, offset));
      && r.Ok?
      && forall i :: 0 <= i < |r.value.features| ==> r.value.features[i].collection == Some(collectionId)
  {
    var req := ItemCollectionRequest(collectionId, bbox, datetime, limit, offset);
    assert InitialQueue(req.collections, ctx.hrefs) == [collectionId];
  }

  /** The search `get_item` runs: one id in one collection, limit 10. */
  function ItemSearch(rule: Pager.StopRule, ctx: Context, itemId: string, collectionId: string)
    : Result<FeatureCollection, Error>
  {
    match GetSearchRequest(ctx, Some([collectionId]), Some([itemId]), NoBBox, None, None, Some(10), NoExtensions)
    case Err(e) => Err(e)
    case Ok(req) => SearchResult(rule, ctx, UrlFor(SearchRoute), req)
  }

  /** `Client.get_item`: the one feature found, or not found unless the
      search returned exactly one feature. */
  method GetItem(rule: Pager.StopRule, ctx: Context, itemId: string, collectionId: string) returns (r: Result<Item, Error>)
    ensures var found := ItemSearch(rule, ctx, itemId, collectionId);
      && (r.Ok? <==> found.Ok? && |found.value.features| == 1)
      && (r.Ok? ==> r.value == found.value.features[0] && r.value.collection == Some(collectionId))
      && (r.Err? ==> r == Err(NotFoundError(ItemDoesNotExist(itemId, collectionId))))
  {
    var found := GetSearch(rule, ctx, Some([collectionId]), Some([itemId]), NoBBox, None, None, Some(10),
                           NoExtensions);
    assert InitialQueue(Some([collectionId]), ctx.hrefs) == [collectionId];
    if found.Ok? && |found.value.features| == 1 {
      return Ok(found.value.features[0]);
    }
    return Err(NotFoundError(ItemDoesNotExist(itemId, collectionId)));
  }

  // ---------------------------------------------------------------------
  // Collections

  /** `Client.get_collection`: the registered collection with its links
      rewritten, or not found. */
  method GetCollection(collections: Dict<Collection>, collectionId: string) returns (r: Result<Collection, Error>)
    modifies if collectionId in collections.entries then {collections.entries[collectionId]} else {}
    ensures collectionId !in collections.entries ==> r == Err(NotFoundError(CollectionDoesNotExist(collectionId)))
    ensures collectionId in collections.entries ==>
      && r == Ok(collections.entries[collectionId])
      && r.value.links == Links.CollectionLinks(r.value.id)
      && r.value.assets == old(r.value.assets)
  {
    match collections.Get(collectionId)
    case None =>
      return Err(NotFoundError(CollectionDoesNotExist(collectionId)));
    case Some(collection) =>
      Links.CollectionWithLinks(collection);
      return Ok(collection);
  }

  /** The response of `all_collections`: every collection, then root and self. */
  datatype CollectionList = CollectionList(collections: seq<Collection>, links: seq<Link>)

  function CollectionListLinks(): seq<Link> {
    [Links.RootLink(), Link(UrlFor(GetCollectionsRoute), "self", "application/json", None, None)]
  }

  /** `Client.all_collections`: every registered collection in registry
      order, each with its links rewritten. */
  method AllCollections(collections: Dict<Collection>) returns (r: CollectionList)
    requires collections.Valid()
    modifies set k | k in collections.entries :: collections.entries[k]
    ensures |r.collections| == |collections.keys|
    ensures forall i :: 0 <= i < |collections.keys| ==> r.collections[i] == collections.entries[collections.keys[i]]
    ensures forall i :: 0 <= i < |r.collections| ==> r.collections[i].links == Links.CollectionLinks(r.collections[i].id)
    ensures forall k :: k in collections.entries ==> collections.entries[k].assets == old(collections.entries[k].assets)
    ensures r.links == CollectionListLinks()
  {
    var out: seq<Collection> := [];
    var i := 0;
    while i < |collections.keys|
      invariant 0 <= i <= |collections.keys|
      invariant |out| == i
      invariant forall j :: 0 <= j < i ==> out[j] == collections.entries[collections.keys[j]]
      invariant forall j :: 0 <= j < i ==> out[j].links == Links.CollectionLinks(out[j].id)
      invariant forall k :: k in collections.entries ==> collections.entries[k].assets == old(collections.entries[k].assets)
    {
      var collection := collections.entries[collections.keys[i]];
      Links.CollectionWithLinks(collection);
      out := out + [collection];
      i := i + 1;
    }
    return CollectionList(out, CollectionListLinks());
  }
}
