/** Navigation links: the ones the server puts on each item, on each
    collection, and on a search response. */
module Links {
  import opened Common
  import opened Stac
  import Search

  /** The relations the server always writes itself on an item. */
  predicate IsReserved(rel: string) {
    rel == "root" || rel == "parent" || rel == "collection" || rel == "self"
  }

  function RootLink(): Link {
    Link(UrlFor(LandingPageRoute), "root", "application/json", None, None)
  }

  /** The links of `links` whose relation is not reserved, in their order. */
  function KeepUnreserved(links: seq<Link>): seq<Link> {
    if links == [] then []
    else
      var last := links[|links| - 1];
      KeepUnreserved(links[..|links| - 1]) + (if IsReserved(last.rel) then [] else [last])
  }

  /** A link is kept iff it is one of the item's links and its relation is
      not reserved. */
  lemma {:induction false} KeepUnreservedMembers(links: seq<Link>)
    ensures forall l :: l in KeepUnreserved(links) <==> l in links && !IsReserved(l.rel)
  {
    if links != [] {
      var init := links[..|links| - 1];
      KeepUnreservedMembers(init);
      assert links == init + [links[|links| - 1]];
    }
  }

  lemma {:induction false} KeepUnreservedAppend(a: seq<Link>, b: seq<Link>)
    ensures KeepUnreserved(a + b) == KeepUnreserved(a) + KeepUnreserved(b)
  {
    if b != [] {
      var init := b[..|b| - 1];
      KeepUnreservedAppend(a, init);
      assert (a + b)[..|a + b| - 1] == a + init;
    } else {
      assert a + b == a;
    }
  }

  /** Links that carry no reserved relation are all kept. */
  lemma {:induction false} KeepUnreservedIdentity(links: seq<Link>)
    requires forall i :: 0 <= i < |links| ==> !IsReserved(links[i].rel)
    ensures KeepUnreserved(links) == links
  {
    if links != [] {
      KeepUnreservedIdentity(links[..|links| - 1]);
      assert !IsReserved(links[|links| - 1].rel);
    }
  }

  /** Links that all carry a reserved relation are all dropped. */
  lemma {:induction false} KeepUnreservedNone(links: seq<Link>)
    requires forall i :: 0 <= i < |links| ==> IsReserved(links[i].rel)
    ensures KeepUnreserved(links) == []
  {
    if links != [] {
      KeepUnreservedNone(links[..|links| - 1]);
      assert IsReserved(links[|links| - 1].rel);
    }
  }

  /** Python's truth value of `item.get("id")`. */
  predicate HasId(item: Item) {
    item.id.Some? && item.id.value != ""
  }

  /** root, collection, parent (the same href as collection), and self when
      the item has an id. */
  function GeneratedItemLinks(item: Item, collection: string): seq<Link> {
    var href := UrlFor(GetCollectionRoute(collection));
    [RootLink(),
     Link(href, "collection", "application/json", None, None),
     Link(href, "parent", "application/json", None, None)]
    + (if HasId(item)
       then [Link(UrlFor(GetItemRoute(collection, item.id.value)), "self", "application/geo+json", None, None)]
       else [])
  }

  /** An item as `item_with_links` leaves it: tagged with its collection, its
      links replaced by the generated ones followed by its own unreserved links. */
  function Decorated(item: Item, collection: string): (r: Item)
    ensures r.id == item.id && r.payload == item.payload
    ensures r.collection == Some(collection)
    ensures |r.links| >= 3 && r.links[0] == RootLink()
    ensures r.links[1].rel == "collection" && r.links[2].rel == "parent"
    ensures r.links[1].href == UrlFor(GetCollectionRoute(collection)) == r.links[2].href
    ensures var n := if HasId(item) then 4 else 3;
      |r.links| == n + |KeepUnreserved(item.links)| && r.links[n..] == KeepUnreserved(item.links)
    ensures HasId(item) ==> r.links[3].rel == "self" && r.links[3].href == UrlFor(GetItemRoute(collection, item.id.value))
  {
    var generated := GeneratedItemLinks(item, collection);
    var kept := KeepUnreserved(item.links);
    item.(collection := Some(collection), links := generated + kept)
  }

  /** Decorating an item twice for the same collection changes nothing more. */
  lemma DecoratedIdempotent(item: Item, collection: string)
    ensures Decorated(Decorated(item, collection), collection) == Decorated(item, collection)
  {
    var once := Decorated(item, collection);
    var generated := GeneratedItemLinks(item, collection);
    var kept := KeepUnreserved(item.links);
    assert once.links == generated + kept;
    assert HasId(once) == HasId(item);
    assert GeneratedItemLinks(once, collection) == generated;
    GeneratedAllReserved(item, collection);
    KeepUnreservedNone(generated);
    KeptUnreserved(item.links);
    KeepUnreservedIdentity(kept);
    KeepUnreservedAppend(generated, kept);
    assert KeepUnreserved(once.links) == kept;
  }

  lemma GeneratedAllReserved(item: Item, collection: string)
    ensures forall i :: 0 <= i < |GeneratedItemLinks(item, collection)| ==>
      IsReserved(GeneratedItemLinks(item, collection)[i].rel)
  {
  }

  lemma KeptUnreserved(links: seq<Link>)
    ensures forall i :: 0 <= i < |KeepUnreserved(links)| ==> !IsReserved(KeepUnreserved(links)[i].rel)
  {
    var kept := KeepUnreserved(links);
    KeepUnreservedMembers(links);
    forall i | 0 <= i < |kept|
      ensures !IsReserved(kept[i].rel)
    {
      assert kept[i] in kept;
    }
  }

  /** `Client.item_with_links`: builds the generated links, then appends the
      item's own links whose relation is not reserved. */
  method ItemWithLinks(item: Item, collection: string) returns (r: Item)
    ensures r == Decorated(item, collection)
  {
    var links := [RootLink()];
    var href := UrlFor(GetCollectionRoute(collection));
    links := links + [Link(href, "collection", "application/json", None, None)];
    links := links + [Link(href, "parent", "application/json", None, None)];
    if HasId(item) {
      links := links + [Link(UrlFor(GetItemRoute(collection, item.id.value)), "self", "application/geo+json", None, None)];
    }
    ghost var generated := links;
    assert generated == GeneratedItemLinks(item, collection);
    var i := 0;
    while i < |item.links|
      invariant 0 <= i <= |item.links|
      invariant links == generated + KeepUnreserved(item.links[..i])
    {
      var link := item.links[i];
      if !IsReserved(link.rel) {
        links := links + [link];
      }
      assert item.links[..i + 1][..i] == item.links[..i];
      i := i + 1;
    }
    assert item.links[..|item.links|] == item.links;
    r := item.(collection := Some(collection), links := links);
  }

  /** root, parent, self and items, in that order. */
  function CollectionLinks(id: string): seq<Link> {
    [RootLink(),
     Link(UrlFor(LandingPageRoute), "parent", "application/json", None, None),
     Link(UrlFor(GetCollectionRoute(id)), "self", "application/json", None, None),
     Link(UrlFor(GetItemCollectionRoute(id)), "items", "application/geo+json", None, None)]
  }

  /** `collection_with_links`: replaces the collection's links in place. */
  method CollectionWithLinks(collection: Collection)
    modifies collection
    ensures collection.links == CollectionLinks(collection.id)
    ensures |collection.links| == 4
    ensures collection.links[0] == RootLink()
    ensures collection.links[1].rel == "parent" && collection.links[1].href == UrlFor(LandingPageRoute)
    ensures collection.links[2].rel == "self" && collection.links[2].href == UrlFor(GetCollectionRoute(collection.id))
    ensures collection.links[3].rel == "items" && collection.links[3].href == UrlFor(GetItemCollectionRoute(collection.id))
    ensures collection.assets == old(collection.assets)
  {
    collection.links := CollectionLinks(collection.id);
  }

  /** The query string of a GET "next" link: the body with `collections`
      comma-joined, and a non-empty `bbox` comma-joined after rendering each
      number with `render` (Python's `str`). */
  function NextQuery(next: SearchBody, render: real -> string): QueryParams {
    QueryParams(next,
                Search.Join(next.collections.GetOr([])),
                if next.bbox.Some? && next.bbox.value != []
                then Some(Search.Join(Search.MapRender(next.bbox.value, render)))
                else None)
  }

  /** The links of a search response: root first, then self, then next only
      when there is a next page. A GET echoes the request URL and puts the
      next page in a query string; a POST carries the bodies. */
  function ResponseLinks(verb: HttpMethod, url: Href, body: SearchBody, next: Option<SearchBody>,
                         render: real -> string): (r: seq<Link>)
    ensures |r| == if next.Some? then 3 else 2
    ensures r[0] == RootLink()
    ensures r[1].rel == "self" && r[1].href == RequestUrl && r[1].verb == Some(verb)
    ensures forall i :: 0 <= i < |r| ==> (r[i].rel == "next" <==> i == 2)
    ensures verb == Post ==> r[1].body == Some(body)
    ensures verb == Get ==> r[1].body == None
    ensures next.Some? ==> r[2].verb == Some(verb)
    ensures next.Some? && verb == Post ==> r[2].href == url && r[2].body == next
    ensures next.Some? && verb == Get ==> r[2].href == WithQuery(url, NextQuery(next.value, render))
  {
    match verb
    case Get =>
      [RootLink(), Link(RequestUrl, "self", "application/geo+json", Some(Get), None)]
      + (if next.Some?
         then [Link(WithQuery(url, NextQuery(next.value, render)), "next", "application/geo+json", Some(Get), None)]
         else [])
    case Post =>
      [RootLink(), Link(RequestUrl, "self", "application/geo+json", Some(Post), Some(body))]
      + (if next.Some? then [Link(url, "next", "application/geo+json", Some(Post), next)] else [])
  }

  /** The `collections` parameter of a GET next link, read back by the GET
      request parser, is the id list it was built from (ids non-empty and
      comma-free). */
  lemma NextQueryCollectionsRoundTrip(next: SearchBody, render: real -> string)
    requires next.collections.Some? && |next.collections.value| >= 1
    requires forall i :: 0 <= i < |next.collections.value| ==>
      next.collections.value[i] != "" && ',' !in next.collections.value[i]
    ensures Search.CollectionConverter(Some(NextQuery(next, render).collections)) == next.collections
  {
    Search.ListRoundTrip(next.collections.value);
  }

  /** The `bbox` parameter of a GET next link, read back by the GET request
      parser, is the bbox it was built from, when rendering and parsing a
      number agree. */
  lemma NextQueryBBoxRoundTrip(next: SearchBody, render: real -> string, parse: string -> Option<real>)
    requires next.bbox.Some? && (|next.bbox.value| == 4 || |next.bbox.value| == 6)
    requires forall i :: 0 <= i < |next.bbox.value| ==>
      ',' !in render(next.bbox.value[i]) && parse(render(next.bbox.value[i])) == Some(next.bbox.value[i])
    ensures NextQuery(next, render).bbox.Some?
    ensures Search.BBoxConverter(NextQuery(next, render).bbox, parse) == Ok(next.bbox)
  {
    Search.BBoxRoundTrip(next.bbox.value, render, parse);
  }
}
