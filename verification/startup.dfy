/** Start-up of the file-backed server: which geoparquet files to serve, and
    the registry of collections read from them (`create_api` and its
    `lifespan`). */
module Startup {
  import opened Common
  import opened Stac

  predicate EndsWith(s: string, suffix: string) {
    |suffix| <= |s| && s[|s| - |suffix|..] == suffix
  }

  /** A POSIX path is absolute when it starts at the root. */
  predicate IsAbsolute(path: string) {
    |path| > 0 && path[0] == '/'
  }

  /** The configured location names a TOML file listing the geoparquet files;
      any other value is itself the one geoparquet file. A listed href that
      is relative is joined to the TOML file's directory and resolved.
      `listed` is the `hrefs` list read from the TOML file, `parentOf` the
      directory of a path, `resolve` the join-and-resolve of a relative href
      against a directory. */
  method ResolveHrefs(setting: string, listed: string -> seq<string>, parentOf: string -> string,
                      resolve: (string, string) -> string) returns (hrefs: seq<string>)
    ensures !EndsWith(setting, ".toml") ==> hrefs == [setting]
    ensures EndsWith(setting, ".toml") ==>
      var entries := listed(setting);
      && |hrefs| == |entries|
      && forall i :: 0 <= i < |entries| ==>
           hrefs[i] == if IsAbsolute(entries[i]) then entries[i] else resolve(parentOf(setting), entries[i])
    ensures EndsWith(setting, ".toml") && (forall dir, href :: IsAbsolute(resolve(dir, href))) ==>
      forall i :: 0 <= i < |hrefs| ==> IsAbsolute(hrefs[i])
  {
    if !EndsWith(setting, ".toml") {
      return [setting];
    }
    var entries := listed(setting);
    var directory := parentOf(setting);
    hrefs := [];
    var i := 0;
    while i < |entries|
      invariant 0 <= i <= |entries| && |hrefs| == i
      invariant forall k :: 0 <= k < i ==>
        hrefs[k] == if IsAbsolute(entries[k]) then entries[k] else resolve(directory, entries[k])
    {
      if IsAbsolute(entries[i]) {
        hrefs := hrefs + [entries[i]];
      } else {
        hrefs := hrefs + [resolve(directory, entries[i])];
      }
      i := i + 1;
    }
  }

  /** A collection together with the geoparquet file it was read from. */
  datatype Source = Source(href: string, collection: Collection)

  function Pairs(href: string, cs: seq<Collection>): (r: seq<Source>)
    ensures |r| == |cs| && forall k :: 0 <= k < |cs| ==> r[k] == Source(href, cs[k])
  {
    seq(|cs|, k requires 0 <= k < |cs| => Source(href, cs[k]))
  }

  /** Every collection of every file, file by file, in the order they are
      read; `read` is the store's `get_collections`. */
  function Sources(hrefs: seq<string>, read: string -> seq<Collection>): seq<Source> {
    if hrefs == [] then []
    else
      var last := hrefs[|hrefs| - 1];
      Sources(hrefs[..|hrefs| - 1], read) + Pairs(last, read(last))
  }

  function SourceIds(sources: seq<Source>): (r: seq<string>)
    ensures |r| == |sources| && forall k :: 0 <= k < |sources| ==> r[k] == sources[k].collection.id
  {
    seq(|sources|, k requires 0 <= k < |sources| => sources[k].collection.id)
  }

  predicate DistinctSources(sources: seq<Source>) {
    forall i, j :: 0 <= i < j < |sources| ==> sources[i].collection.id != sources[j].collection.id
  }

  /** What the two dictionaries hold once `done` has been read: every id once,
      in reading order, mapped to its collection and to its file. */
  ghost predicate Registered(done: seq<Source>, collections: Dict<Collection>, hrefs: Dict<string>) {
    && DistinctSources(done)
    && collections.Valid() && hrefs.Valid()
    && collections.keys == SourceIds(done) && hrefs.keys == collections.keys
    && forall k :: 0 <= k < |done| ==>
         && done[k].collection.id in collections.entries
         && collections.entries[done[k].collection.id] == done[k].collection
         && done[k].collection.id in hrefs.entries
         && hrefs.entries[done[k].collection.id] == done[k].href
  }

  /** Among the sources from `lo` up to `hi`, one repeats an id read before
      it while all before it are distinct, and `e` is the ValueError naming
      that id: the first repeated id, reported. */
  ghost predicate DuplicateBetween(sources: seq<Source>, lo: nat, hi: nat, e: Error) {
    exists k :: lo <= k < hi && k < |sources| && DistinctSources(sources[..k])
      && sources[k].collection.id in SourceIds(sources[..k])
      && e == ValueError(SameCollectionInTwoFiles(sources[k].collection.id))
  }

  /** The `lifespan` loop: reads each file's collections and refuses an id
      seen before with a ValueError; otherwise records the collection and
      the file it came from. */
  method BuildFromFiles(hrefs: seq<string>, read: string -> seq<Collection>)
    returns (r: Result<(Dict<Collection>, Dict<string>), Error>)
    ensures var sources := Sources(hrefs, read);
      r.Ok? <==> DistinctSources(sources)
    ensures var sources := Sources(hrefs, read);
      r.Err? ==> DuplicateBetween(sources, 0, |sources|, r.error)
    ensures r.Ok? ==> Registered(Sources(hrefs, read), r.value.0, r.value.1)
  {
    ghost var all := Sources(hrefs, read);
    var collections: Dict<Collection> := EmptyDict();
    var hrefDict: Dict<string> := EmptyDict();
    var i := 0;
    while i < |hrefs|
      invariant 0 <= i <= |hrefs|
      invariant Registered(Sources(hrefs[..i], read), collections, hrefDict)
    {
      var href := hrefs[i];
      var cs := read(href);
      ghost var done := Sources(hrefs[..i], read);
      SourcesPrefix(hrefs, i + 1, read);
      assert hrefs[..i + 1][..i] == hrefs[..i];
      assert Sources(hrefs[..i + 1], read) == done + Pairs(href, cs);
      var step := RegisterFile(href, cs, collections, hrefDict, done, all);
      if step.Err? {
        DuplicateWiden(all, |done|, |done| + |cs|, step.error);
        return step;
      }
      collections, hrefDict := step.value.0, step.value.1;
      i := i + 1;
    }
    assert hrefs[..i] == hrefs;
    return Ok((collections, hrefDict));
  }

  /** The inner loop of `lifespan` over one file's collections, given the
      registry built from the sources `before` it; `all` is every source, of
      which `before` and this file's collections are a prefix. */
  method RegisterFile(href: string, cs: seq<Collection>, collections0: Dict<Collection>, hrefs0: Dict<string>,
                      ghost before: seq<Source>, ghost all: seq<Source>)
    returns (r: Result<(Dict<Collection>, Dict<string>), Error>)
    requires Registered(before, collections0, hrefs0)
    requires |before| + |cs| <= |all| && all[..|before| + |cs|] == before + Pairs(href, cs)
    ensures r.Ok? ==> Registered(before + Pairs(href, cs), r.value.0, r.value.1)
    ensures r.Err? ==> DuplicateBetween(all, |before|, |before| + |cs|, r.error)
  {
    var collections, hrefDict := collections0, hrefs0;
    ghost var done := before;
    var j := 0;
    while j < |cs|
      invariant 0 <= j <= |cs|
      invariant done == before + Pairs(href, cs[..j])
      invariant Registered(done, collections, hrefDict)
    {
      var c := cs[j];
      NextSource(all, before, href, cs, j);
      if c.id in collections.entries {
        DuplicateFound(done, c.id, collections, hrefDict);
        DuplicateInFile(all, before, href, cs, j, done);
        return Err(ValueError(SameCollectionInTwoFiles(c.id)));
      }
      RegisteredStep(done, Source(href, c), collections, hrefDict);
      collections := collections.Put(c.id, c);
      hrefDict := hrefDict.Put(c.id, href);
      done := done + [Source(href, c)];
      TakeOneMore(cs, j);
      j := j + 1;
    }
    assert cs[..j] == cs;
    return Ok((collections, hrefDict));
  }

  /** The source after `before` and the first `j` collections of a file is
      the file's `j`th collection. */
  lemma NextSource(all: seq<Source>, before: seq<Source>, href: string, cs: seq<Collection>, j: nat)
    requires j < |cs| && |before| + |cs| <= |all| && all[..|before| + |cs|] == before + Pairs(href, cs)
    ensures all[..|before| + j] == before + Pairs(href, cs[..j])
    ensures all[|before| + j] == Source(href, cs[j])
  {
    assert all[..|before| + j] == all[..|before| + |cs|][..|before| + j];
    assert all[|before| + j] == all[..|before| + |cs|][|before| + j];
  }

  /** An id already registered was read before, among distinct ids. */
  lemma DuplicateFound(done: seq<Source>, id: string, collections: Dict<Collection>, hrefs: Dict<string>)
    requires Registered(done, collections, hrefs) && id in collections.entries
    ensures DistinctSources(done) && id in SourceIds(done)
  {
  }

  /** Reading the first `m` files yields a prefix of reading them all. */
  lemma {:induction false} SourcesPrefix(hrefs: seq<string>, m: nat, read: string -> seq<Collection>)
    requires m <= |hrefs|
    ensures var part := Sources(hrefs[..m], read);
      |part| <= |Sources(hrefs, read)| && Sources(hrefs, read)[..|part|] == part
    decreases |hrefs|
  {
    if m < |hrefs| {
      var init := hrefs[..|hrefs| - 1];
      assert init[..m] == hrefs[..m];
      SourcesPrefix(init, m, read);
    } else {
      assert hrefs[..m] == hrefs;
    }
  }

  /** The `j`th collection of a file repeating an id of the distinct
      sources read before it is a first duplicate within that file. */
  lemma DuplicateInFile(all: seq<Source>, before: seq<Source>, href: string, cs: seq<Collection>, j: nat,
                        done: seq<Source>)
    requires j < |cs| && |before| + |cs| <= |all| && all[..|before| + |cs|] == before + Pairs(href, cs)
    requires done == before + Pairs(href, cs[..j])
    requires DistinctSources(done) && cs[j].id in SourceIds(done)
    ensures DuplicateBetween(all, |before|, |before| + |cs|, ValueError(SameCollectionInTwoFiles(cs[j].id)))
  {
    NextSource(all, before, href, cs, j);
    assert |done| == |before| + j;
    DuplicateAt(all, |before| + j, |before|, |before| + |cs|, ValueError(SameCollectionInTwoFiles(cs[j].id)));
  }

  /** A source repeating an id after distinct ones is a first duplicate. */
  lemma DuplicateAt(sources: seq<Source>, k: nat, lo: nat, hi: nat, e: Error)
    requires lo <= k < hi && k < |sources| && DistinctSources(sources[..k])
    requires sources[k].collection.id in SourceIds(sources[..k])
    requires e == ValueError(SameCollectionInTwoFiles(sources[k].collection.id))
    ensures DuplicateBetween(sources, lo, hi, e)
  {
  }

  /** A first duplicate within a stretch of the sources is one within all
      of them, and the sources are then not distinct. */
  lemma DuplicateWiden(sources: seq<Source>, lo: nat, hi: nat, e: Error)
    requires DuplicateBetween(sources, lo, hi, e)
    ensures DuplicateBetween(sources, 0, |sources|, e)
    ensures !DistinctSources(sources)
  {
    var k :| lo <= k < hi && k < |sources| && DistinctSources(sources[..k])
      && sources[k].collection.id in SourceIds(sources[..k])
      && e == ValueError(SameCollectionInTwoFiles(sources[k].collection.id));
    FirstDuplicateNotDistinct(sources, k);
  }

  /** An id already present in the part read so far breaks distinctness. */
  lemma FirstDuplicateNotDistinct(sources: seq<Source>, k: nat)
    requires k < |sources| && sources[k].collection.id in SourceIds(sources[..k])
    ensures !DistinctSources(sources)
  {
    var ids := SourceIds(sources[..k]);
    var i :| 0 <= i < |ids| && ids[i] == sources[k].collection.id;
    assert sources[..k][i] == sources[i];
  }

  /** Recording a collection whose id is new keeps the registry exact. */
  lemma RegisteredStep(done: seq<Source>, s: Source, collections: Dict<Collection>, hrefs: Dict<string>)
    requires Registered(done, collections, hrefs)
    requires s.collection.id !in collections.entries
    ensures Registered(done + [s], collections.Put(s.collection.id, s.collection),
                       hrefs.Put(s.collection.id, s.href))
  {
    var all := done + [s];
    var id := s.collection.id;
    assert id !in hrefs.entries;
    forall k | 0 <= k < |done|
      ensures done[k].collection.id != id
    {
      assert done[k].collection.id in collections.entries;
    }
    assert SourceIds(all) == SourceIds(done) + [id];
    forall k | 0 <= k < |all|
      ensures all[k].collection.id in collections.Put(id, s.collection).entries
      ensures collections.Put(id, s.collection).entries[all[k].collection.id] == all[k].collection
      ensures all[k].collection.id in hrefs.Put(id, s.href).entries
      ensures hrefs.Put(id, s.href).entries[all[k].collection.id] == all[k].href
    {
      if k < |done| {
        assert all[k] == done[k];
      }
    }
  }

  /** An accepted start-up never serves one collection id from two files:
      each id is mapped to the one file it was read from. */
  lemma HrefIsSourceFile(hrefs: seq<string>, read: string -> seq<Collection>,
                         collections: Dict<Collection>, files: Dict<string>, k: nat)
    requires Registered(Sources(hrefs, read), collections, files)
    requires k < |Sources(hrefs, read)|
    ensures files.entries[Sources(hrefs, read)[k].collection.id] == Sources(hrefs, read)[k].href
    ensures Sources(hrefs, read)[k].href in hrefs
  {
    SourceFromListedFile(hrefs, read, k);
  }

  /** Every source comes from one of the listed files. */
  lemma {:induction false} SourceFromListedFile(hrefs: seq<string>, read: string -> seq<Collection>, k: nat)
    requires k < |Sources(hrefs, read)|
    ensures Sources(hrefs, read)[k].href in hrefs
  {
    var init := hrefs[..|hrefs| - 1];
    var last := hrefs[|hrefs| - 1];
    if k < |Sources(init, read)| {
      SourceFromListedFile(init, read, k);
      assert Sources(hrefs, read)[k] == Sources(init, read)[k];
    } else {
      assert Sources(hrefs, read)[k].href == last;
    }
  }
}
