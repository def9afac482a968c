/** The federated pager of `Client.search`: a queue of collection ids is
    drained front to back, each collection's store is asked for the rows
    still wanted, and the loop either stops with a resume point or moves on. */
module Pager {
  import opened Common
  import opened Stac
  import Links

  /** The page size when a request names none. */
  const DefaultLimit: nat := 10000

  /** A geoparquet store: given a file href and a search body, the rows it
      returns, in its own fixed order. */
  type Store = (string, SearchBody) -> seq<Item>

  /** A store that never returns more rows than the limit it was given. */
  ghost predicate Bounded(store: Store) {
    forall href: string, q: SearchBody :: q.limit.Some? ==> |store(href, q)| <= q.limit.value
  }

  /** What the pager reads but never changes: the id-to-href registry, the
      store, and the translated search body every store query starts from. */
  datatype Env = Env(hrefs: Dict<string>, store: Store, template: SearchBody)

  /** `hrefs.get(collection)` taken as a condition: an id with no entry, or
      with an empty href, has no store. */
  function HrefOf(hrefs: Dict<string>, collection: string): (r: Option<string>)
    ensures r.Some? <==> collection in hrefs.entries && hrefs.entries[collection] != ""
    ensures r.Some? ==> r.value == hrefs.entries[collection]
  {
    match hrefs.Get(collection)
    case Some(href) => if href != "" then Some(href) else None
    case None => None
  }

  /** The body sent to one store: the search body with no collection filter
      and the current limit and offset. */
  function StoreQuery(template: SearchBody, limit: nat, offset: nat): (q: SearchBody)
    ensures q.collections == Some([]) && q.limit == Some(limit) && q.offset == Some(offset)
    ensures q.(collections := template.collections, limit := template.limit, offset := template.offset) == template
  {
    template.(collections := Some([]), limit := Some(limit), offset := Some(offset))
  }

  /** The rows of one store, each tagged and linked for `collection`. */
  function DecorateAll(rows: seq<Item>, collection: string): (r: seq<Item>)
    ensures |r| == |rows|
    ensures forall i :: 0 <= i < |rows| ==> r[i] == Links.Decorated(rows[i], collection)
  {
    seq(|rows|, i requires 0 <= i < |rows| => Links.Decorated(rows[i], collection))
  }

  lemma DecorateAllAppend(a: seq<Item>, b: seq<Item>, collection: string)
    ensures DecorateAll(a + b, collection) == DecorateAll(a, collection) + DecorateAll(b, collection)
  {
  }

  /** The loop variables of `Client.search`: the queue, the remaining limit,
      the offset into the head collection, and the items taken so far. */
  datatype PagerState = PagerState(queue: seq<string>, limit: nat, offset: nat, items: seq<Item>)

  /** When the loop breaks after a store answered. `AsWritten` is the test of
      the source (items taken in total against the remaining limit);
      `Intended` tests the rows of this store against the remaining limit. */
  datatype StopRule = AsWritten | Intended

  predicate Stops(rule: StopRule, taken: nat, fetched: nat, limit: nat) {
    match rule
    case AsWritten => taken >= limit
    case Intended => fetched >= limit
  }

  /** The state the loop ends in, started from `s`. */
  function Drain(rule: StopRule, env: Env, s: PagerState): (r: PagerState)
    decreases |s.queue|
  {
    if s.queue == [] then s
    else
      var collection := s.queue[0];
      match HrefOf(env.hrefs, collection)
      case None => Drain(rule, env, s.(queue := s.queue[1..]))
      case Some(href) =>
        var got := env.store(href, StoreQuery(env.template, s.limit, s.offset));
        var items := s.items + DecorateAll(got, collection);
        if Stops(rule, |items|, |got|, s.limit) then
          PagerState(s.queue, s.limit, s.offset + |got|, items)
        else
          Drain(rule, env, PagerState(s.queue[1..], s.limit - |got|, 0, items))
  }

  /** The pager loop of `Client.search`, with the stop test `rule`. */
  method Paginate(rule: StopRule, env: Env, queue: seq<string>, limit: nat, offset: nat) returns (s: PagerState)
    ensures s == Drain(rule, env, PagerState(queue, limit, offset, []))
  {
    ghost var goal := Drain(rule, env, PagerState(queue, limit, offset, []));
    var collections := queue;
    var remaining: nat := limit;
    var skip: nat := offset;
    var items: seq<Item> := [];
    while collections != []
      invariant Drain(rule, env, PagerState(collections, remaining, skip, items)) == goal
      decreases |collections|
    {
      var collection := collections[0];
      collections := collections[1..];
      var href := HrefOf(env.hrefs, collection);
      if href.Some? {
        var got := env.store(href.value, StoreQuery(env.template, remaining, skip));
        var decorated := DecorateRows(got, collection);
        items := items + decorated;
        if Stops(rule, |items|, |got|, remaining) {
          collections := [collection] + collections;
          skip := skip + |got|;
          return PagerState(collections, remaining, skip, items);
        } else {
          remaining := remaining - |got|;
          skip := 0;
        }
      }
    }
    return PagerState(collections, remaining, skip, items);
  }

  /** The inner loop of `Client.search`: each row of one store, linked for
      its collection, in the store's order. */
  method DecorateRows(rows: seq<Item>, collection: string) returns (items: seq<Item>)
    ensures items == DecorateAll(rows, collection)
  {
    items := [];
    var i := 0;
    while i < |rows|
      invariant 0 <= i <= |rows|
      invariant items == DecorateAll(rows[..i], collection)
    {
      var item := Links.ItemWithLinks(rows[i], collection);
      DecorateAllAppend(rows[..i], [rows[i]], collection);
      TakeOneMore(rows, i);
      items := items + [item];
      i := i + 1;
    }
    assert rows[..|rows|] == rows;
  }

  /** `search.limit or DEFAULT_LIMIT`: the page size a next link asks for. */
  function RequestedLimit(limit: Option<nat>): (n: nat)
    ensures limit.Some? && limit.value != 0 ==> n == limit.value
    ensures limit.None? || limit.value == 0 ==> n == DefaultLimit
  {
    if limit.Some? && limit.value != 0 then limit.value else DefaultLimit
  }

  /** `search_dict.get("limit", DEFAULT_LIMIT)`: the budget the loop starts with. */
  function PageLimit(body: SearchBody): (n: nat)
    ensures body.limit.Some? ==> n == body.limit.value
    ensures body.limit.None? ==> n == DefaultLimit
  {
    body.limit.GetOr(DefaultLimit)
  }

  /** The loop's starting state for a search body and an initial queue. */
  function Start(body: SearchBody, queue: seq<string>): (s: PagerState)
    ensures s.queue == queue && s.items == [] && s.limit == PageLimit(body)
    ensures s.offset == body.offset.GetOr(0)
  {
    PagerState(queue, PageLimit(body), body.offset.GetOr(0), [])
  }

  /** The next-page cursor: only when ids remain queued and the page holds
      at least the requested limit; it resumes at the head of the queue. */
  function NextSearch(requested: Option<nat>, body: SearchBody, s: PagerState): (r: Option<SearchBody>)
    ensures r.Some? <==> s.queue != [] && RequestedLimit(requested) <= |s.items|
    ensures r.Some? ==> r.value.limit == Some(RequestedLimit(requested))
    ensures r.Some? ==> r.value.offset == Some(s.offset) && r.value.collections == Some(s.queue)
    ensures r.Some? ==> r.value.(limit := body.limit, offset := body.offset, collections := body.collections) == body
  {
    if s.queue != [] && RequestedLimit(requested) <= |s.items| then
      Some(body.(limit := Some(RequestedLimit(requested)), offset := Some(s.offset), collections := Some(s.queue)))
    else None
  }

  // ---------------------------------------------------------------------
  // What the loop guarantees

  /** The loop only ever appends to the items it started with, and never
      takes more than its budget from stores that respect their limit. */
  lemma {:induction false} DrainBound(rule: StopRule, env: Env, s: PagerState)
    requires Bounded(env.store)
    decreases |s.queue|
    ensures var r := Drain(rule, env, s);
      |s.items| <= |r.items| <= |s.items| + s.limit && r.items[..|s.items|] == s.items
  {
    if s.queue != [] {
      var collection := s.queue[0];
      match HrefOf(env.hrefs, collection)
      case None =>
        DrainBound(rule, env, s.(queue := s.queue[1..]));
      case Some(href) =>
        var got := env.store(href, StoreQuery(env.template, s.limit, s.offset));
        assert |got| <= s.limit;
        var items := s.items + DecorateAll(got, collection);
        if !Stops(rule, |items|, |got|, s.limit) {
          var next := PagerState(s.queue[1..], s.limit - |got|, 0, items);
          DrainBound(rule, env, next);
          var r := Drain(rule, env, next);
          assert r.items[..|s.items|] == r.items[..|items|][..|s.items|];
        }
    }
  }

  /** Ids with no href at the front of the queue are dropped without a
      store query, a row or a change to the offset. */
  lemma {:induction false} DrainSkipsUnresolved(rule: StopRule, env: Env, s: PagerState, skipped: seq<string>)
    requires forall i :: 0 <= i < |skipped| ==> HrefOf(env.hrefs, skipped[i]).None?
    ensures Drain(rule, env, s.(queue := skipped + s.queue)) == Drain(rule, env, s)
  {
    if skipped == [] {
      assert skipped + s.queue == s.queue;
    } else {
      var t := s.(queue := skipped + s.queue);
      assert t.queue[0] == skipped[0];
      assert HrefOf(env.hrefs, t.queue[0]).None?;
      assert t.queue[1..] == skipped[1..] + s.queue;
      assert Drain(rule, env, t) == Drain(rule, env, t.(queue := t.queue[1..]));
      assert t.(queue := t.queue[1..]) == s.(queue := skipped[1..] + s.queue);
      DrainSkipsUnresolved(rule, env, s, skipped[1..]);
    }
  }

  /** The offset the head of `popped + ...` would have been queried with:
      the starting offset survives only while no popped id had an href. */
  function CarriedOffset(hrefs: Dict<string>, popped: seq<string>, offset: nat): (r: nat)
    ensures (forall i :: 0 <= i < |popped| ==> HrefOf(hrefs, popped[i]).None?) ==> r == offset
    ensures (exists i :: 0 <= i < |popped| && HrefOf(hrefs, popped[i]).Some?) ==> r == 0
  {
    if exists i :: 0 <= i < |popped| && HrefOf(hrefs, popped[i]).Some? then 0 else offset
  }

  /** Where the loop started from `s` stops: the suffix of the queue from
      `k` on, whose head (the collection it broke on, put back) has an href,
      with the offset just past the rows that collection returned; or an
      empty queue. */
  ghost predicate ResumesAt(rule: StopRule, env: Env, s: PagerState, k: nat) {
    var r := Drain(rule, env, s);
    && k <= |s.queue| && r.queue == s.queue[k..]
    && (r.queue == [] ==> r.offset == CarriedOffset(env.hrefs, s.queue, s.offset))
    && (r.queue != [] ==>
          var start := CarriedOffset(env.hrefs, s.queue[..k], s.offset);
          && HrefOf(env.hrefs, r.queue[0]).Some?
          && r.offset == start + |env.store(HrefOf(env.hrefs, r.queue[0]).value, StoreQuery(env.template, r.limit, start))|)
  }

  /** The loop ends with a suffix of its queue, and a non-empty one starts
      where the rows of its head collection ran out. */
  lemma {:induction false} DrainResume(rule: StopRule, env: Env, s: PagerState) returns (k: nat)
    decreases |s.queue|
    ensures ResumesAt(rule, env, s, k)
  {
    if s.queue == [] {
      k := 0;
    } else {
      var collection := s.queue[0];
      match HrefOf(env.hrefs, collection)
      case None =>
        var t := s.(queue := s.queue[1..]);
        var j := DrainResume(rule, env, t);
        k := j + 1;
        SkipResumes(rule, env, s, t, j);
      case Some(href) =>
        var got := env.store(href, StoreQuery(env.template, s.limit, s.offset));
        if Stops(rule, |s.items| + |got|, |got|, s.limit) {
          k := 0;
          StopResumes(rule, env, s, href);
        } else {
          var t := PagerState(s.queue[1..], s.limit - |got|, 0, s.items + DecorateAll(got, collection));
          var j := DrainResume(rule, env, t);
          k := j + 1;
          ContinueResumes(rule, env, s, href, t, j);
        }
    }
  }

  /** The step of `DrainResume` where the head collection has no href. */
  lemma SkipResumes(rule: StopRule, env: Env, s: PagerState, t: PagerState, j: nat)
    requires s.queue != [] && HrefOf(env.hrefs, s.queue[0]).None? && t == s.(queue := s.queue[1..])
    requires ResumesAt(rule, env, t, j)
    ensures ResumesAt(rule, env, s, j + 1)
  {
    assert Drain(rule, env, s) == Drain(rule, env, t);
    ResumeAfterSkip(env.hrefs, s.queue, s.offset, j);
  }

  /** The step of `DrainResume` where the loop stops on the head collection. */
  lemma StopResumes(rule: StopRule, env: Env, s: PagerState, href: string)
    requires s.queue != [] && HrefOf(env.hrefs, s.queue[0]) == Some(href)
    requires var got := env.store(href, StoreQuery(env.template, s.limit, s.offset));
      Stops(rule, |s.items| + |got|, |got|, s.limit)
    ensures ResumesAt(rule, env, s, 0)
  {
    DrainStops(rule, env, s, href);
    assert s.queue[..0] == [];
  }

  /** The step of `DrainResume` where the loop moves past the head collection. */
  lemma ContinueResumes(rule: StopRule, env: Env, s: PagerState, href: string, t: PagerState, j: nat)
    requires s.queue != [] && HrefOf(env.hrefs, s.queue[0]) == Some(href)
    requires var got := env.store(href, StoreQuery(env.template, s.limit, s.offset));
      && !Stops(rule, |s.items| + |got|, |got|, s.limit)
      && t == PagerState(s.queue[1..], s.limit - |got|, 0, s.items + DecorateAll(got, s.queue[0]))
    requires ResumesAt(rule, env, t, j)
    ensures ResumesAt(rule, env, s, j + 1)
  {
    DrainContinues(rule, env, s, href);
    ResumeAfterContinue(env.hrefs, s.queue, s.offset, j);
  }

  /** Popping a head collection that has no href leaves the carried offset
      as it was. */
  lemma ResumeAfterSkip(hrefs: Dict<string>, queue: seq<string>, offset: nat, j: nat)
    requires queue != [] && HrefOf(hrefs, queue[0]).None? && j <= |queue| - 1
    ensures queue[j + 1..] == queue[1..][j..]
    ensures CarriedOffset(hrefs, queue[..j + 1], offset) == CarriedOffset(hrefs, queue[1..][..j], offset)
    ensures CarriedOffset(hrefs, queue, offset) == CarriedOffset(hrefs, queue[1..], offset)
  {
    assert queue[..j + 1] == [queue[0]] + queue[1..][..j];
    assert queue == [queue[0]] + queue[1..];
  }

  /** After moving past a head collection that has an href, the offset the
      loop carries is 0 whatever it started with. */
  lemma ResumeAfterContinue(hrefs: Dict<string>, queue: seq<string>, offset: nat, j: nat)
    requires queue != [] && HrefOf(hrefs, queue[0]).Some? && j < |queue|
    ensures queue[j + 1..] == queue[1..][j..]
    ensures CarriedOffset(hrefs, queue[..j + 1], offset) == 0
    ensures CarriedOffset(hrefs, queue, offset) == 0
    ensures CarriedOffset(hrefs, queue[1..][..j], 0) == 0
  {
    assert queue[..j + 1][0] == queue[0];
  }

  /** Drained from `s`, the loop keeps the items of `s` and tags every item
      it adds with a collection id from the queue of `s`. */
  ghost predicate TagsFromQueue(rule: StopRule, env: Env, s: PagerState) {
    var r := Drain(rule, env, s);
    && |s.items| <= |r.items| && r.items[..|s.items|] == s.items
    && forall i :: |s.items| <= i < |r.items| ==>
         r.items[i].collection.Some? && r.items[i].collection.value in s.queue
  }

  /** Every item the loop takes is tagged with a collection id from the
      queue it was given. */
  lemma {:induction false} DrainTagsFromQueue(rule: StopRule, env: Env, s: PagerState)
    decreases |s.queue|
    ensures TagsFromQueue(rule, env, s)
  {
    if s.queue != [] {
      var collection := s.queue[0];
      match HrefOf(env.hrefs, collection)
      case None =>
        var t := s.(queue := s.queue[1..]);
        DrainTagsFromQueue(rule, env, t);
        SkipTags(rule, env, s, t);
      case Some(href) =>
        var got := env.store(href, StoreQuery(env.template, s.limit, s.offset));
        if Stops(rule, |s.items| + |got|, |got|, s.limit) {
          DrainStops(rule, env, s, href);
          TaggedAppend(s.items, got, collection);
        } else {
          var t := PagerState(s.queue[1..], s.limit - |got|, 0, s.items + DecorateAll(got, collection));
          DrainTagsFromQueue(rule, env, t);
          ContinueTags(rule, env, s, href, t);
        }
    }
  }

  /** The step of `DrainTagsFromQueue` where the head collection has no href. */
  lemma SkipTags(rule: StopRule, env: Env, s: PagerState, t: PagerState)
    requires s.queue != [] && HrefOf(env.hrefs, s.queue[0]).None? && t == s.(queue := s.queue[1..])
    requires TagsFromQueue(rule, env, t)
    ensures TagsFromQueue(rule, env, s)
  {
    var r := Drain(rule, env, s);
    assert r == Drain(rule, env, t);
    forall i | |s.items| <= i < |r.items|
      ensures r.items[i].collection.Some? && r.items[i].collection.value in s.queue
    {
      var c := r.items[i].collection.value;
      var k :| 0 <= k < |t.queue| && t.queue[k] == c;
      assert s.queue[k + 1] == c;
    }
  }

  /** The step of `DrainTagsFromQueue` where the loop moves past the head collection. */
  lemma ContinueTags(rule: StopRule, env: Env, s: PagerState, href: string, t: PagerState)
    requires s.queue != [] && HrefOf(env.hrefs, s.queue[0]) == Some(href)
    requires var got := env.store(href, StoreQuery(env.template, s.limit, s.offset));
      && !Stops(rule, |s.items| + |got|, |got|, s.limit)
      && t == PagerState(s.queue[1..], s.limit - |got|, 0, s.items + DecorateAll(got, s.queue[0]))
    requires TagsFromQueue(rule, env, t)
    ensures TagsFromQueue(rule, env, s)
  {
    var got := env.store(href, StoreQuery(env.template, s.limit, s.offset));
    DrainContinues(rule, env, s, href);
    TaggedAppend(s.items, got, s.queue[0]);
    TaggedExtend(s.items, t.items, Drain(rule, env, t).items, s.queue);
  }

  /** Appending the rows of one store tags every new item with its collection. */
  lemma TaggedAppend(items: seq<Item>, got: seq<Item>, collection: string)
    ensures var all := items + DecorateAll(got, collection);
      && all[..|items|] == items
      && forall i :: |items| <= i < |all| ==> all[i].collection == Some(collection)
  {
  }

  /** The tags of two stretches of appended items, read off the queue that
      the second stretch was taken from (the tail of `queue`). */
  lemma TaggedExtend(base: seq<Item>, items: seq<Item>, r: seq<Item>, queue: seq<string>)
    requires queue != [] && |base| <= |items| <= |r|
    requires items[..|base|] == base && r[..|items|] == items
    requires forall i :: |base| <= i < |items| ==> items[i].collection == Some(queue[0])
    requires forall i :: |items| <= i < |r| ==> r[i].collection.Some? && r[i].collection.value in queue[1..]
    ensures r[..|base|] == base
    ensures forall i :: |base| <= i < |r| ==> r[i].collection.Some? && r[i].collection.value in queue
  {
    assert r[..|base|] == r[..|items|][..|base|];
    forall i | |base| <= i < |r|
      ensures r[i].collection.Some? && r[i].collection.value in queue
    {
      if i < |items| {
        assert r[i] == items[i];
      } else {
        var c := r[i].collection.value;
        var k :| 0 <= k < |queue[1..]| && queue[1..][k] == c;
        assert queue[k + 1] == c;
      }
    }
  }

  /** A next link means the page is full: it holds exactly the requested
      number of items, which is then also the budget the loop started with. */
  lemma NextImpliesFullPage(rule: StopRule, env: Env, body: SearchBody, queue: seq<string>)
    requires Bounded(env.store)
    ensures var s := Drain(rule, env, Start(body, queue));
      NextSearch(body.limit, body, s).Some? ==> |s.items| == RequestedLimit(body.limit) == PageLimit(body)
  {
    DrainBound(rule, env, Start(body, queue));
  }

  // ---------------------------------------------------------------------
  // Stores that serve slices of fixed tables

  /** The rows of one file, empty when the href is unknown. */
  function Table(tables: map<string, seq<Item>>, href: string): seq<Item> {
    if href in tables then tables[href] else []
  }

  /** `rows[offset:]`, empty when the offset is past the end. */
  function TailFrom(rows: seq<Item>, offset: nat): (r: seq<Item>)
    ensures offset <= |rows| ==> r == rows[offset..]
    ensures offset > |rows| ==> r == []
  {
    if offset <= |rows| then rows[offset..] else []
  }

  lemma TailFromAdvance(rows: seq<Item>, offset: nat, k: nat)
    requires k <= |TailFrom(rows, offset)|
    ensures TailFrom(rows, offset + k) == TailFrom(rows, offset)[k..]
  {
  }

  /** `rows[offset:offset + limit]`: at most `limit` rows from `offset` on. */
  function Window(rows: seq<Item>, offset: nat, limit: nat): (r: seq<Item>)
    ensures |r| <= limit && |r| <= |TailFrom(rows, offset)|
    ensures r == TailFrom(rows, offset)[..|r|]
    ensures |r| < limit ==> r == TailFrom(rows, offset)
  {
    var tail := TailFrom(rows, offset);
    if limit <= |tail| then tail[..limit] else tail
  }

  /** A store that answers every query with the window of its file that the
      query's offset and limit select. */
  function SliceStore(tables: map<string, seq<Item>>): Store {
    (href: string, q: SearchBody) =>
      var rows := Table(tables, href);
      Window(rows, q.offset.GetOr(0), q.limit.GetOr(|rows|))
  }

  lemma SliceStoreBounded(tables: map<string, seq<Item>>)
    ensures Bounded(SliceStore(tables))
  {
  }

  /** The rows still to come from a queue, the head read from `offset` on:
      every row of every resolved collection, in queue order. */
  function Remaining(hrefs: Dict<string>, tables: map<string, seq<Item>>, queue: seq<string>, offset: nat): seq<Item>
    decreases |queue|
  {
    if queue == [] then []
    else
      match HrefOf(hrefs, queue[0])
      case None => Remaining(hrefs, tables, queue[1..], offset)
      case Some(href) =>
        DecorateAll(TailFrom(Table(tables, href), offset), queue[0]) + Remaining(hrefs, tables, queue[1..], 0)
  }

  lemma DecorateAllSplit(rows: seq<Item>, k: nat, collection: string)
    requires k <= |rows|
    ensures DecorateAll(rows, collection)[..k] == DecorateAll(rows[..k], collection)
    ensures DecorateAll(rows, collection)[k..] == DecorateAll(rows[k..], collection)
  {
    assert rows == rows[..k] + rows[k..];
    DecorateAllAppend(rows[..k], rows[k..], collection);
  }

  /** Taking `k` rows of the head collection moves the rest forward by `k`. */
  lemma RemainingAdvance(hrefs: Dict<string>, tables: map<string, seq<Item>>, queue: seq<string>, href: string,
                         offset: nat, k: nat)
    requires queue != [] && HrefOf(hrefs, queue[0]) == Some(href)
    requires k <= |TailFrom(Table(tables, href), offset)|
    ensures k <= |Remaining(hrefs, tables, queue, offset)|
    ensures Remaining(hrefs, tables, queue, offset)[..k] == DecorateAll(TailFrom(Table(tables, href), offset)[..k], queue[0])
    ensures Remaining(hrefs, tables, queue, offset + k) == Remaining(hrefs, tables, queue, offset)[k..]
  {
    var table := Table(tables, href);
    var rows := TailFrom(table, offset);
    var rest := Remaining(hrefs, tables, queue[1..], 0);
    var all := Remaining(hrefs, tables, queue, offset);
    assert all == DecorateAll(rows, queue[0]) + rest;
    assert Remaining(hrefs, tables, queue, offset + k) == DecorateAll(TailFrom(table, offset + k), queue[0]) + rest;
    TailFromAdvance(table, offset, k);
    DecorateAllSplit(rows, k, queue[0]);
    assert all[..k] == DecorateAll(rows, queue[0])[..k];
    assert all[k..] == DecorateAll(rows, queue[0])[k..] + rest;
  }

  /** Drained from `s` on a slice-serving store, the loop takes the first
      `n` of the rows still to come and leaves a resume point at exactly the
      rest; with the intended stop test it stops early only with its budget
      spent. */
  ghost predicate TakesPrefix(rule: StopRule, hrefs: Dict<string>, tables: map<string, seq<Item>>,
                              template: SearchBody, s: PagerState, n: nat)
  {
    var r := Drain(rule, Env(hrefs, SliceStore(tables), template), s);
    var all := Remaining(hrefs, tables, s.queue, s.offset);
    && n <= |all| && r.items == s.items + all[..n]
    && Remaining(hrefs, tables, r.queue, r.offset) == all[n..]
    && (rule == Intended && r.queue != [] ==> n == s.limit)
  }

  /** On stores that serve slices, the loop takes a prefix of the rows still
      to come and leaves a resume point at exactly the rest. With the
      intended stop test it also stops only once the budget is spent. */
  lemma {:induction false} DrainTakesPrefix(rule: StopRule, hrefs: Dict<string>, tables: map<string, seq<Item>>,
                                           template: SearchBody, s: PagerState) returns (n: nat)
    decreases |s.queue|
    ensures TakesPrefix(rule, hrefs, tables, template, s, n)
  {
    if s.queue == [] {
      n := 0;
    } else {
      var collection := s.queue[0];
      match HrefOf(hrefs, collection)
      case None =>
        var t := s.(queue := s.queue[1..]);
        n := DrainTakesPrefix(rule, hrefs, tables, template, t);
        SkipTakesPrefix(rule, hrefs, tables, template, s, t, n);
      case Some(href) =>
        var got := Window(Table(tables, href), s.offset, s.limit);
        if Stops(rule, |s.items| + |got|, |got|, s.limit) {
          n := StopTakesPrefix(rule, hrefs, tables, template, s, href);
        } else {
          var t := PagerState(s.queue[1..], s.limit - |got|, 0, s.items + DecorateAll(got, collection));
          var m := DrainTakesPrefix(rule, hrefs, tables, template, t);
          n := ContinueTakesPrefix(rule, hrefs, tables, template, s, href, t, m);
        }
    }
  }

  /** The step of `DrainTakesPrefix` where the head collection has no href. */
  lemma SkipTakesPrefix(rule: StopRule, hrefs: Dict<string>, tables: map<string, seq<Item>>,
                        template: SearchBody, s: PagerState, t: PagerState, n: nat)
    requires s.queue != [] && HrefOf(hrefs, s.queue[0]).None? && t == s.(queue := s.queue[1..])
    requires TakesPrefix(rule, hrefs, tables, template, t, n)
    ensures TakesPrefix(rule, hrefs, tables, template, s, n)
  {
    var env := Env(hrefs, SliceStore(tables), template);
    assert Drain(rule, env, s) == Drain(rule, env, t);
    assert Remaining(hrefs, tables, s.queue, s.offset) == Remaining(hrefs, tables, t.queue, t.offset);
  }

  /** The step of `DrainTakesPrefix` where the head collection is read to
      its end and the loop goes on with `m` rows from the rest of the queue. */
  lemma ContinueTakesPrefix(rule: StopRule, hrefs: Dict<string>, tables: map<string, seq<Item>>,
                            template: SearchBody, s: PagerState, href: string, t: PagerState, m: nat)
    returns (n: nat)
    requires s.queue != [] && HrefOf(hrefs, s.queue[0]) == Some(href)
    requires var got := Window(Table(tables, href), s.offset, s.limit);
      && !Stops(rule, |s.items| + |got|, |got|, s.limit)
      && t == PagerState(s.queue[1..], s.limit - |got|, 0, s.items + DecorateAll(got, s.queue[0]))
    requires TakesPrefix(rule, hrefs, tables, template, t, m)
    ensures TakesPrefix(rule, hrefs, tables, template, s, n)
  {
    var env := Env(hrefs, SliceStore(tables), template);
    var got := Window(Table(tables, href), s.offset, s.limit);
    SliceStoreAnswer(tables, href, template, s.limit, s.offset);
    var decorated := DecorateAll(got, s.queue[0]);
    var r := Drain(rule, env, t);
    DrainContinues(rule, env, s, href);
    assert Drain(rule, env, s) == r;
    assert |got| < s.limit;
    var rest := Remaining(hrefs, tables, t.queue, 0);
    n := |got| + m;
    StepTakesWholeCollection(hrefs, tables, s.queue, href, s.offset, got, m);
    assert r.items == (s.items + decorated) + rest[..m];
    ConcatAssoc(s.items, decorated, rest[..m]);
  }

  /** A slice-serving store answers a query with the window it selects. */
  lemma SliceStoreAnswer(tables: map<string, seq<Item>>, href: string, template: SearchBody, limit: nat, offset: nat)
    ensures SliceStore(tables)(href, StoreQuery(template, limit, offset)) == Window(Table(tables, href), offset, limit)
  {
  }

  /** One step of the loop that moves on past the head collection. */
  lemma DrainContinues(rule: StopRule, env: Env, s: PagerState, href: string)
    requires s.queue != [] && HrefOf(env.hrefs, s.queue[0]) == Some(href)
    requires var got := env.store(href, StoreQuery(env.template, s.limit, s.offset));
      !Stops(rule, |s.items| + |got|, |got|, s.limit)
    ensures var got := env.store(href, StoreQuery(env.template, s.limit, s.offset));
      Drain(rule, env, s)
        == Drain(rule, env, PagerState(s.queue[1..], s.limit - |got|, 0, s.items + DecorateAll(got, s.queue[0])))
  {
  }

  /** One step of the loop that stops on the head collection. */
  lemma DrainStops(rule: StopRule, env: Env, s: PagerState, href: string)
    requires s.queue != [] && HrefOf(env.hrefs, s.queue[0]) == Some(href)
    requires var got := env.store(href, StoreQuery(env.template, s.limit, s.offset));
      Stops(rule, |s.items| + |got|, |got|, s.limit)
    ensures var got := env.store(href, StoreQuery(env.template, s.limit, s.offset));
      Drain(rule, env, s) == PagerState(s.queue, s.limit, s.offset + |got|, s.items + DecorateAll(got, s.queue[0]))
  {
  }

  lemma ConcatAssoc(a: seq<Item>, b: seq<Item>, c: seq<Item>)
    ensures (a + b) + c == a + (b + c)
  {
  }

  /** The step of `DrainTakesPrefix` where the loop stops on the head collection. */
  lemma StopTakesPrefix(rule: StopRule, hrefs: Dict<string>, tables: map<string, seq<Item>>,
                        template: SearchBody, s: PagerState, href: string) returns (n: nat)
    requires s.queue != [] && HrefOf(hrefs, s.queue[0]) == Some(href)
    requires var got := Window(Table(tables, href), s.offset, s.limit);
      Stops(rule, |s.items| + |got|, |got|, s.limit)
    ensures TakesPrefix(rule, hrefs, tables, template, s, n)
    ensures rule == Intended ==> n == s.limit
  {
    var env := Env(hrefs, SliceStore(tables), template);
    var got := Window(Table(tables, href), s.offset, s.limit);
    SliceStoreAnswer(tables, href, template, s.limit, s.offset);
    DrainStops(rule, env, s, href);
    var r := PagerState(s.queue, s.limit, s.offset + |got|, s.items + DecorateAll(got, s.queue[0]));
    assert Drain(rule, env, s) == r;
    n := |got|;
    var tail := TailFrom(Table(tables, href), s.offset);
    assert got == tail[..n];
    RemainingAdvance(hrefs, tables, s.queue, href, s.offset, n);
    var all := Remaining(hrefs, tables, s.queue, s.offset);
    assert all[..n] == DecorateAll(got, s.queue[0]);
  }

  /** When the head collection is read to its end, the rows to come are
      those rows followed by the rest of the queue's. */
  lemma StepTakesWholeCollection(hrefs: Dict<string>, tables: map<string, seq<Item>>, queue: seq<string>,
                                 href: string, offset: nat, got: seq<Item>, m: nat)
    requires queue != [] && HrefOf(hrefs, queue[0]) == Some(href)
    requires got == TailFrom(Table(tables, href), offset)
    requires m <= |Remaining(hrefs, tables, queue[1..], 0)|
    ensures var all := Remaining(hrefs, tables, queue, offset);
      var rest := Remaining(hrefs, tables, queue[1..], 0);
      && |got| + m <= |all|
      && all[..|got| + m] == DecorateAll(got, queue[0]) + rest[..m]
      && all[|got| + m..] == rest[m..]
  {
    var all := Remaining(hrefs, tables, queue, offset);
    var rest := Remaining(hrefs, tables, queue[1..], 0);
    assert all == DecorateAll(got, queue[0]) + rest;
  }

  /** With the intended stop test, a page on slice-serving stores either
      holds every remaining row, or offers a next link whose cursor resumes
      at exactly the rows not yet returned. */
  lemma IntendedNextOrDone(hrefs: Dict<string>, tables: map<string, seq<Item>>, body: SearchBody, queue: seq<string>)
    requires body.limit != Some(0)
    ensures var s := Drain(Intended, Env(hrefs, SliceStore(tables), body), Start(body, queue));
      var all := Remaining(hrefs, tables, queue, body.offset.GetOr(0));
      && (NextSearch(body.limit, body, s).None? ==> s.items == all)
      && (NextSearch(body.limit, body, s).Some? ==>
            all == s.items + Remaining(hrefs, tables, s.queue, s.offset))
  {
    var start := Start(body, queue);
    var n := DrainTakesPrefix(Intended, hrefs, tables, body, start);
    var s := Drain(Intended, Env(hrefs, SliceStore(tables), body), start);
    var all := Remaining(hrefs, tables, queue, body.offset.GetOr(0));
    var rest := Remaining(hrefs, tables, s.queue, s.offset);
    PrefixSplit(all, n, s.items, rest);
    assert s.queue == [] ==> rest == [];
    assert RequestedLimit(body.limit) == start.limit;
  }

  lemma PrefixSplit(all: seq<Item>, n: nat, prefix: seq<Item>, rest: seq<Item>)
    requires n <= |all| && prefix == all[..n] && rest == all[n..]
    ensures |prefix| == n && all == prefix + rest
    ensures rest == [] ==> prefix == all
  {
  }

  /** Three collections of one row each and a limit of 3: the loop as
      written stops after two rows with the third collection still queued,
      and offers no next link, so the third row cannot be reached. */
  lemma StopShortCounterexample(hrefs: Dict<string>, tables: map<string, seq<Item>>, body: SearchBody,
                                a: string, b: string, c: string, ha: string, hb: string, hc: string)
    requires HrefOf(hrefs, a) == Some(ha) && HrefOf(hrefs, b) == Some(hb) && HrefOf(hrefs, c) == Some(hc)
    requires |Table(tables, ha)| == 1 && |Table(tables, hb)| == 1 && |Table(tables, hc)| == 1
    requires body.limit == Some(3) && body.offset.None?
    ensures var s := Drain(AsWritten, Env(hrefs, SliceStore(tables), body), Start(body, [a, b, c]));
      && |Remaining(hrefs, tables, [a, b, c], 0)| == 3
      && |s.items| == 2 && s.queue == [b, c]
      && NextSearch(body.limit, body, s).None?
  {
    var env := Env(hrefs, SliceStore(tables), body);
    var start := Start(body, [a, b, c]);
    assert start == PagerState([a, b, c], 3, 0, []);
    var s1 := FirstOfThree(env, tables, body, a, b, c, ha);
    var fin := SecondOfThree(env, tables, body, s1, b, c, hb);
    assert Drain(AsWritten, env, start) == fin;
    OneRowEach(hrefs, tables, a, b, c, ha, hb, hc);
  }

  /** The first step of the counterexample: `a` yields its one row and the
      loop moves on with a budget of 2. */
  lemma FirstOfThree(env: Env, tables: map<string, seq<Item>>, body: SearchBody,
                     a: string, b: string, c: string, ha: string) returns (s1: PagerState)
    requires env.store == SliceStore(tables) && env.template == body
    requires HrefOf(env.hrefs, a) == Some(ha) && |Table(tables, ha)| == 1
    ensures s1.queue == [b, c] && s1.limit == 2 && s1.offset == 0 && |s1.items| == 1
    ensures Drain(AsWritten, env, PagerState([a, b, c], 3, 0, [])) == Drain(AsWritten, env, s1)
  {
    var start := PagerState([a, b, c], 3, 0, []);
    SliceStoreAnswer(tables, ha, body, 3, 0);
    var got := Window(Table(tables, ha), 0, 3);
    assert |got| == 1;
    DrainContinues(AsWritten, env, start, ha);
    assert start.queue[0] == a && start.queue[1..] == [b, c];
    s1 := PagerState([b, c], 2, 0, DecorateAll(got, a));
    assert start.items + DecorateAll(got, a) == s1.items;
    assert PagerState(start.queue[1..], start.limit - |got|, 0, start.items + DecorateAll(got, start.queue[0])) == s1;
  }

  /** The second step of the counterexample: `b` yields its one row, two
      items are taken against a budget of 2, and the loop stops on `b`. */
  lemma SecondOfThree(env: Env, tables: map<string, seq<Item>>, body: SearchBody, s1: PagerState,
                      b: string, c: string, hb: string) returns (fin: PagerState)
    requires env.store == SliceStore(tables) && env.template == body
    requires HrefOf(env.hrefs, b) == Some(hb) && |Table(tables, hb)| == 1
    requires s1.queue == [b, c] && s1.limit == 2 && s1.offset == 0 && |s1.items| == 1
    ensures fin.queue == [b, c] && |fin.items| == 2
    ensures Drain(AsWritten, env, s1) == fin
  {
    SliceStoreAnswer(tables, hb, body, 2, 0);
    var got := Window(Table(tables, hb), 0, 2);
    assert |got| == 1;
    DrainStops(AsWritten, env, s1, hb);
    fin := PagerState(s1.queue, 2, 1, s1.items + DecorateAll(got, b));
  }

  /** Three one-row files hold three rows to come. */
  lemma OneRowEach(hrefs: Dict<string>, tables: map<string, seq<Item>>,
                   a: string, b: string, c: string, ha: string, hb: string, hc: string)
    requires HrefOf(hrefs, a) == Some(ha) && HrefOf(hrefs, b) == Some(hb) && HrefOf(hrefs, c) == Some(hc)
    requires |Table(tables, ha)| == 1 && |Table(tables, hb)| == 1 && |Table(tables, hc)| == 1
    ensures |Remaining(hrefs, tables, [a, b, c], 0)| == 3
  {
    var q := [a, b, c];
    assert q[1..] == [b, c] && q[1..][1..] == [c] && q[1..][1..][1..] == [];
    assert |Remaining(hrefs, tables, [c], 0)| == 1;
    assert |Remaining(hrefs, tables, [b, c], 0)| == 2;
  }
}
