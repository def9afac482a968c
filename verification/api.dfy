/** The per-request registry of the application: collection id to
    collection, and collection id to the href of its geoparquet file, built
    from the loaded collection list on every request. */
module Api {
  import opened Common
  import opened Stac

  /** The media type that marks an asset as the collection's geoparquet file. */
  const GeoparquetMediaType: string := "application/vnd.apache.parquet"

  predicate IsParquet(asset: Asset) {
    asset.mediaType == Some(GeoparquetMediaType)
  }

  /** How many assets carry the geoparquet media type. */
  function ParquetCount(assets: seq<(string, Asset)>): (n: nat)
    ensures n <= |assets|
    ensures n == 0 <==> forall i :: 0 <= i < |assets| ==> !IsParquet(assets[i].1)
  {
    if assets == [] then 0
    else ParquetCount(assets[..|assets| - 1]) + (if IsParquet(assets[|assets| - 1].1) then 1 else 0)
  }

  /** The href of the first asset that carries the geoparquet media type. */
  function FirstParquetHref(assets: seq<(string, Asset)>): (href: string)
    requires ParquetCount(assets) >= 1
    ensures exists i :: 0 <= i < |assets| && IsParquet(assets[i].1) && assets[i].1.href == href
  {
    var init := assets[..|assets| - 1];
    if ParquetCount(init) >= 1 then
      var href := FirstParquetHref(init);
      assert forall i :: 0 <= i < |init| ==> init[i] == assets[i];
      href
    else assets[|assets| - 1].1.href
  }

  /** The ids of the collections with exactly one geoparquet asset, in list
      order: the order in which the registry loop records their hrefs. */
  function ParquetIds(cs: seq<Collection>): seq<string>
    reads cs
  {
    if cs == [] then []
    else
      var last := cs[|cs| - 1];
      ParquetIds(cs[..|cs| - 1]) + (if ParquetCount(last.assets) == 1 then [last.id] else [])
  }

  /** A collection list the registry accepts: no id twice, and no
      collection with two geoparquet assets. */
  predicate Clean(cs: seq<Collection>)
    reads cs
  {
    DistinctIds(cs) && forall i :: 0 <= i < |cs| ==> ParquetCount(cs[i].assets) <= 1
  }

  /** The exception the registry loop raises on reaching `c` after the
      accepted `prefix`: a repeated id first, then a second geoparquet asset. */
  predicate FailsAt(prefix: seq<Collection>, c: Collection, e: Error)
    reads c
  {
    if c.id in Ids(prefix) then e == HttpError(500, DuplicateCollectionId(c.id))
    else ParquetCount(c.assets) >= 2 && e == HttpError(500, TwoHrefsForOneCollection(c.id))
  }

  /** Every collection of `cs` under its own id, in list order. */
  ghost predicate CollectionsOf(cs: seq<Collection>, collections: Dict<Collection>)
    reads cs
  {
    && collections.Valid()
    && collections.keys == Ids(cs)
    && forall i :: 0 <= i < |cs| ==>
         cs[i].id in collections.entries && collections.entries[cs[i].id] == cs[i]
  }

  /** An href exactly for the collections of `cs` with one geoparquet asset,
      in list order: the first such asset's href, made absolute. */
  ghost predicate HrefsOf(cs: seq<Collection>, hrefs: Dict<string>, makeAbsolute: string -> string)
    reads cs
  {
    && hrefs.Valid()
    && hrefs.keys == ParquetIds(cs)
    && (forall i :: 0 <= i < |cs| ==> (cs[i].id in hrefs.entries <==> ParquetCount(cs[i].assets) == 1))
    && (forall i :: 0 <= i < |cs| && ParquetCount(cs[i].assets) == 1 ==>
          hrefs.entries[cs[i].id] == makeAbsolute(FirstParquetHref(cs[i].assets)))
  }

  /** The registry of an accepted list: its collections and its hrefs as
      above, and no href without a collection. */
  ghost predicate Registered(cs: seq<Collection>, reg: Registry, makeAbsolute: string -> string)
    reads cs
  {
    && CollectionsOf(cs, reg.collections)
    && HrefsOf(cs, reg.hrefs, makeAbsolute)
    && (forall k :: k in reg.hrefs.entries ==> k in reg.collections.entries)
  }

  /** What the registry loop has built once it accepted `prefix`. */
  ghost predicate Built(prefix: seq<Collection>, collections: Dict<Collection>, hrefs: Dict<string>,
                        makeAbsolute: string -> string)
    reads prefix
  {
    Clean(prefix) && Registered(prefix, Registry(collections, hrefs), makeAbsolute)
  }

  /** The registry loop refuses `cs` with `e`: some collection fails with
      `e` after every collection before it was accepted. */
  ghost predicate RefusedWith(cs: seq<Collection>, e: Error)
    reads cs
  {
    exists i :: 0 <= i < |cs| && Clean(cs[..i]) && FailsAt(cs[..i], cs[i], e)
  }

  /** The registry loop of `collections_hot_reload_middleware`. Every asset
      href is made absolute with `makeAbsolute` (relative to the collections
      file). */
  method BuildRegistry(cs: seq<Collection>, makeAbsolute: string -> string) returns (r: Result<Registry, Error>)
    ensures r.Ok? <==> Clean(cs)
    ensures r.Err? ==> RefusedWith(cs, r.error)
    ensures r.Ok? ==> Registered(cs, r.value, makeAbsolute)
  {
    var collections := EmptyDict<Collection>();
    var hrefs := EmptyDict<string>();
    var i := 0;
    assert cs[..0] == [];
    while i < |cs|
      invariant 0 <= i <= |cs|
      invariant Built(cs[..i], collections, hrefs, makeAbsolute)
    {
      var step := Accept(cs[i], collections, hrefs, makeAbsolute, cs[..i]);
      if step.Err? {
        RefusedAt(cs, i, step.error);
        return Err(step.error);
      }
      collections, hrefs := step.value.collections, step.value.hrefs;
      TakeOneMore(cs, i);
      i := i + 1;
    }
    BuiltAll(cs, collections, hrefs, makeAbsolute);
    return Ok(Registry(collections, hrefs));
  }

  /** One pass of the registry loop: refuses `c` when its id was seen before,
      then when it has a second geoparquet asset; otherwise records it and
      the href of its geoparquet asset, if any. */
  method Accept(c: Collection, collections: Dict<Collection>, hrefs: Dict<string>, makeAbsolute: string -> string,
                ghost prefix: seq<Collection>) returns (r: Result<Registry, Error>)
    requires Built(prefix, collections, hrefs, makeAbsolute)
    ensures r.Err? <==> c.id in Ids(prefix) || ParquetCount(c.assets) >= 2
    ensures r.Err? ==> FailsAt(prefix, c, r.error)
    ensures r.Ok? ==> Built(prefix + [c], r.value.collections, r.value.hrefs, makeAbsolute)
  {
    if c.id in collections.entries {
      return Err(HttpError(500, DuplicateCollectionId(c.id)));
    }
    var hrefs', failed := AddParquetHref(c.id, c.assets, hrefs, makeAbsolute);
    if failed {
      return Err(HttpError(500, TwoHrefsForOneCollection(c.id)));
    }
    BuiltStep(prefix, c, collections, hrefs, hrefs', makeAbsolute);
    return Ok(Registry(collections.Put(c.id, c), hrefs'));
  }

  /** The loop refuses the list when it reaches a refused collection. */
  lemma RefusedAt(cs: seq<Collection>, i: nat, e: Error)
    requires i < |cs| && Clean(cs[..i]) && FailsAt(cs[..i], cs[i], e)
    ensures !Clean(cs)
    ensures RefusedWith(cs, e)
  {
    NotCleanPast(cs, i);
  }

  /** Once every collection is accepted, the registry is the one promised. */
  lemma BuiltAll(cs: seq<Collection>, collections: Dict<Collection>, hrefs: Dict<string>,
                 makeAbsolute: string -> string)
    requires Built(cs[..|cs|], collections, hrefs, makeAbsolute)
    ensures Clean(cs) && Registered(cs, Registry(collections, hrefs), makeAbsolute)
  {
    assert cs[..|cs|] == cs;
  }

  /** One accepted collection extends what the loop has built. */
  lemma BuiltStep(prefix: seq<Collection>, c: Collection, collections: Dict<Collection>, hrefs: Dict<string>,
                  hrefs': Dict<string>, makeAbsolute: string -> string)
    requires Built(prefix, collections, hrefs, makeAbsolute)
    requires c.id !in collections.entries && ParquetCount(c.assets) <= 1
    requires ParquetCount(c.assets) == 0 ==> hrefs' == hrefs
    requires ParquetCount(c.assets) == 1 ==> hrefs' == hrefs.Put(c.id, makeAbsolute(FirstParquetHref(c.assets)))
    ensures Built(prefix + [c], collections.Put(c.id, c), hrefs', makeAbsolute)
  {
    NewIdNotInPrefix(prefix, c, collections);
    CleanStep(prefix, c);
    CollectionsStep(prefix, c, collections);
    HrefsStep(prefix, c, hrefs, hrefs', makeAbsolute);
    var collections' := collections.Put(c.id, c);
    assert forall k :: k in hrefs'.entries ==> k in collections'.entries;
  }

  /** An id the loop has not recorded is not the id of an accepted collection. */
  lemma NewIdNotInPrefix(prefix: seq<Collection>, c: Collection, collections: Dict<Collection>)
    requires forall j :: 0 <= j < |prefix| ==> prefix[j].id in collections.entries
    requires c.id !in collections.entries
    ensures forall j :: 0 <= j < |prefix| ==> prefix[j].id != c.id
  {
    forall j | 0 <= j < |prefix|
      ensures prefix[j].id != c.id
    {
      assert prefix[j].id in collections.entries;
    }
  }

  /** Recording one more collection under its new id. */
  lemma CollectionsStep(prefix: seq<Collection>, c: Collection, collections: Dict<Collection>)
    requires CollectionsOf(prefix, collections) && c.id !in collections.entries
    ensures CollectionsOf(prefix + [c], collections.Put(c.id, c))
  {
    var all := prefix + [c];
    var collections' := collections.Put(c.id, c);
    assert Ids(all) == Ids(prefix) + [c.id];
    forall j | 0 <= j < |all|
      ensures all[j].id in collections'.entries && collections'.entries[all[j].id] == all[j]
    {
      if j < |prefix| {
        assert all[j] == prefix[j];
      }
    }
  }

  /** Recording the href of one more collection, if it has a geoparquet asset. */
  lemma HrefsStep(prefix: seq<Collection>, c: Collection, hrefs: Dict<string>, hrefs': Dict<string>,
                  makeAbsolute: string -> string)
    requires HrefsOf(prefix, hrefs, makeAbsolute)
    requires forall j :: 0 <= j < |prefix| ==> prefix[j].id != c.id
    requires c.id !in hrefs.entries && ParquetCount(c.assets) <= 1
    requires ParquetCount(c.assets) == 0 ==> hrefs' == hrefs
    requires ParquetCount(c.assets) == 1 ==> hrefs' == hrefs.Put(c.id, makeAbsolute(FirstParquetHref(c.assets)))
    ensures HrefsOf(prefix + [c], hrefs', makeAbsolute)
  {
    var all := prefix + [c];
    forall j | 0 <= j < |all|
      ensures all[j].id in hrefs'.entries <==> ParquetCount(all[j].assets) == 1
      ensures ParquetCount(all[j].assets) == 1 ==>
        hrefs'.entries[all[j].id] == makeAbsolute(FirstParquetHref(all[j].assets))
    {
      if j < |prefix| {
        assert all[j] == prefix[j];
      } else {
        assert all[j] == c;
      }
    }
    HrefKeysStep(prefix, c, hrefs, hrefs', makeAbsolute);
  }

  /** One more collection appends its id to the href order exactly when it
      has one geoparquet asset. */
  lemma HrefKeysStep(prefix: seq<Collection>, c: Collection, hrefs: Dict<string>, hrefs': Dict<string>,
                     makeAbsolute: string -> string)
    requires hrefs.Valid() && hrefs.keys == ParquetIds(prefix) && c.id !in hrefs.entries
    requires ParquetCount(c.assets) == 0 ==> hrefs' == hrefs
    requires ParquetCount(c.assets) == 1 ==> hrefs' == hrefs.Put(c.id, makeAbsolute(FirstParquetHref(c.assets)))
    ensures ParquetCount(c.assets) <= 1 ==> hrefs'.keys == ParquetIds(prefix + [c])
  {
    assert (prefix + [c])[..|prefix|] == prefix;
  }

  /** A clean prefix stays clean with one more collection of a new id and
      at most one geoparquet asset. */
  lemma CleanStep(prefix: seq<Collection>, c: Collection)
    requires Clean(prefix)
    requires forall j :: 0 <= j < |prefix| ==> prefix[j].id != c.id
    requires ParquetCount(c.assets) <= 1
    ensures Clean(prefix + [c])
  {
    var all := prefix + [c];
    forall i, j | 0 <= i < j < |all|
      ensures all[i].id != all[j].id
    {
      if j < |prefix| {
        assert all[i] == prefix[i] && all[j] == prefix[j];
      }
    }
    forall j | 0 <= j < |all|
      ensures ParquetCount(all[j].assets) <= 1
    {
      if j < |prefix| {
        assert all[j] == prefix[j];
      }
    }
  }

  /** The inner loop over one collection's assets: records the href of its
      geoparquet asset, and fails on a second one. */
  method AddParquetHref(id: string, assets: seq<(string, Asset)>, hrefs0: Dict<string>, makeAbsolute: string -> string)
    returns (hrefs: Dict<string>, failed: bool)
    requires hrefs0.Valid() && id !in hrefs0.entries
    ensures failed <==> ParquetCount(assets) >= 2
    ensures !failed && ParquetCount(assets) == 0 ==> hrefs == hrefs0
    ensures !failed && ParquetCount(assets) == 1 ==>
      hrefs == hrefs0.Put(id, makeAbsolute(FirstParquetHref(assets)))
  {
    hrefs := hrefs0;
    var j := 0;
    while j < |assets|
      invariant 0 <= j <= |assets|
      invariant ParquetCount(assets[..j]) <= 1
      invariant ParquetCount(assets[..j]) == 0 ==> hrefs == hrefs0
      invariant ParquetCount(assets[..j]) == 1 ==>
        hrefs == hrefs0.Put(id, makeAbsolute(FirstParquetHref(assets[..j])))
    {
      var asset := assets[j].1;
      ParquetStep(assets, j);
      if asset.mediaType == Some(GeoparquetMediaType) {
        if id in hrefs.entries {
          ParquetCountPrefix(assets, j + 1);
          return hrefs, true;
        }
        hrefs := hrefs.Put(id, makeAbsolute(asset.href));
      }
      j := j + 1;
    }
    assert assets[..|assets|] == assets;
    return hrefs, false;
  }

  /** Extending a prefix by one asset. */
  lemma ParquetStep(assets: seq<(string, Asset)>, j: nat)
    requires j < |assets|
    ensures ParquetCount(assets[..j + 1]) == ParquetCount(assets[..j]) + (if IsParquet(assets[j].1) then 1 else 0)
    ensures ParquetCount(assets[..j]) >= 1 ==> FirstParquetHref(assets[..j + 1]) == FirstParquetHref(assets[..j])
    ensures ParquetCount(assets[..j]) == 0 && IsParquet(assets[j].1) ==> FirstParquetHref(assets[..j + 1]) == assets[j].1.href
  {
    assert assets[..j + 1][..j] == assets[..j];
  }

  /** Geoparquet assets of a prefix are among those of the whole list. */
  lemma {:induction false} ParquetCountPrefix(assets: seq<(string, Asset)>, k: nat)
    requires k <= |assets|
    ensures ParquetCount(assets[..k]) <= ParquetCount(assets)
    decreases |assets| - k
  {
    if k < |assets| {
      ParquetCountPrefix(assets, k + 1);
      assert assets[..k + 1][..k] == assets[..k];
    } else {
      assert assets[..k] == assets;
    }
  }

  /** A list whose first `i` collections are accepted but whose next one is
      refused is not accepted as a whole. */
  lemma NotCleanPast(cs: seq<Collection>, i: nat)
    requires i < |cs|
    requires cs[i].id in Ids(cs[..i]) || ParquetCount(cs[i].assets) >= 2
    ensures !Clean(cs)
  {
    if cs[i].id in Ids(cs[..i]) {
      var j :| 0 <= j < i && Ids(cs[..i])[j] == cs[i].id;
      assert cs[j].id == cs[i].id;
    }
  }

  /** The single asset `collections_from_geoparquet_href` gives a collection. */
  function DataAssets(href: string): seq<(string, Asset)> {
    [("data", Asset(href, Some(GeoparquetMediaType)))]
  }

  /** A collection with only that asset is listed with that href. */
  lemma DataAssetsResolve(href: string)
    ensures ParquetCount(DataAssets(href)) == 1
    ensures FirstParquetHref(DataAssets(href)) == href
  {
    assert DataAssets(href)[..0] == [];
  }

  /** `collections_from_geoparquet_href`: each collection read from one
      geoparquet file loses its links and gets exactly one asset, `data`,
      pointing at that file. */
  method CollectionsFromGeoparquetHref(href: string, cs: seq<Collection>) returns (r: seq<Collection>)
    modifies cs
    ensures r == cs
    ensures forall i :: 0 <= i < |cs| ==> cs[i].links == [] && cs[i].assets == DataAssets(href)
  {
    var i := 0;
    while i < |cs|
      invariant 0 <= i <= |cs|
      invariant forall j :: 0 <= j < i ==> cs[j].links == [] && cs[j].assets == DataAssets(href)
    {
      cs[i].links := [];
      cs[i].assets := DataAssets(href);
      i := i + 1;
    }
    return cs;
  }
}
