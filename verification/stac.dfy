/** The entities the server hands around: JSON payloads, links, items,
    collections and the search body (the `search_dict` of the client). */
module Stac {
  import opened Common

  /** A JSON value, for the parts of a request or record the core passes on
      without looking inside (a CQL2 filter, an intersects geometry, a sort list). */
  datatype Json =
    | JNull
    | JBool(b: bool)
    | JNumber(n: real)
    | JString(s: string)
    | JArray(elems: seq<Json>)
    | JObject(members: seq<(string, Json)>)

  /** Python's truth value of a decoded JSON value (`if x:`). */
  predicate Truthy(j: Json) {
    match j
    case JNull => false
    case JBool(b) => b
    case JNumber(n) => n != 0.0
    case JString(s) => s != ""
    case JArray(es) => es != []
    case JObject(ms) => ms != []
  }

  /** The named routes `request.url_for` resolves. */
  datatype Route =
    | LandingPageRoute
    | GetCollectionsRoute
    | GetCollectionRoute(collectionId: string)
    | GetItemRoute(collectionId: string, itemId: string)
    | GetItemCollectionRoute(collectionId: string)
    | SearchRoute

  /** A link target, kept symbolic: rendering a route or a query string to
      text is left to the web framework. */
  datatype Href =
    | UrlFor(route: Route)                         // str(request.url_for(route))
    | RequestUrl                                   // str(request.url)
    | WithQuery(base: Href, query: QueryParams)    // base + "?" + urlencode(query)
    | Literal(text: string)                        // an href already present on a record

  /** The parameters of a GET "next" link: the next search body, except that
      its `collections` entry is the comma-joined id list and, when the body
      has a non-empty bbox, its `bbox` entry is the comma-joined numbers. */
  datatype QueryParams = QueryParams(params: SearchBody, collections: string, bbox: Option<string>)

  datatype HttpMethod = Get | Post

  datatype Link = Link(href: Href, rel: string, mediaType: string, verb: Option<HttpMethod>, body: Option<SearchBody>)

  /** The translated search request that is sent to each store and echoed
      in links; an absent key is `None`. */
  datatype SearchBody = SearchBody(
    collections: Option<seq<string>>,
    ids: Option<seq<string>>,
    bbox: Option<seq<real>>,
    intersects: Option<Json>,
    datetime: Option<string>,
    limit: Option<nat>,
    offset: Option<nat>,
    filter: Option<Json>,
    filterLang: Option<string>,
    includes: Option<seq<string>>,
    excludes: Option<seq<string>>,
    sortby: Option<Json>)

  /** A record returned by a store; `payload` stands for all its other members. */
  datatype Item = Item(id: Option<string>, collection: Option<string>, links: seq<Link>, payload: Json)

  datatype Asset = Asset(href: string, mediaType: Option<string>)

  /** A collection record. Its id never changes; its links and assets are
      rewritten in place by the server. */
  class Collection {
    const id: string
    var links: seq<Link>
    var assets: seq<(string, Asset)>

    constructor (id: string, links: seq<Link>, assets: seq<(string, Asset)>)
      ensures this.id == id && this.links == links && this.assets == assets
    {
      this.id := id;
      this.links := links;
      this.assets := assets;
    }
  }

  /** What a request sees of the server state: collection id to collection,
      and collection id to the href of its geoparquet file. */
  datatype Registry = Registry(collections: Dict<Collection>, hrefs: Dict<string>)

  /** No two collections of `cs` share an id. */
  predicate DistinctIds(cs: seq<Collection>) {
    forall i, j :: 0 <= i < j < |cs| ==> cs[i].id != cs[j].id
  }

  function Ids(cs: seq<Collection>): (r: seq<string>)
    ensures |r| == |cs| && forall i :: 0 <= i < |cs| ==> r[i] == cs[i].id
  {
    seq(|cs|, i requires 0 <= i < |cs| => cs[i].id)
  }
}
