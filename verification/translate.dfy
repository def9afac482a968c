/** Translation of a search request into the body sent to each store
    (the key-by-key rewriting of `search_dict` in `Client.search`). */
module Translate {
  import opened Common
  import opened Stac

  /** The shapes a `fields` value can take once the request is decoded. */
  datatype FieldsValue =
    | FieldsList(entries: seq<string>)                                   // ["id", "-properties"]
    | FieldsDict(includes: Option<seq<string>>, excludes: Option<seq<string>>)  // {"include": [...], "exclude": [...]}
    | FieldsOther(truthy: bool)                                          // any other JSON value

  /** Python's truth value of a `fields` value. A decoded fields object has
      only the `include` and `exclude` keys, so it is truthy exactly when
      one of them is set; other keys are not modelled. */
  predicate FieldsTruthy(f: FieldsValue) {
    match f
    case FieldsList(es) => es != []
    case FieldsDict(i, e) => i.Some? || e.Some?
    case FieldsOther(t) => t
  }

  /** The decoded request, with every absent or `None` key as `None`. */
  datatype SearchRequest = SearchRequest(
    collections: Option<seq<string>>,
    ids: Option<seq<string>>,
    bbox: Option<seq<real>>,
    intersects: Option<Json>,
    datetime: Option<string>,
    limit: Option<nat>,
    offset: Option<nat>,
    filterExpr: Option<Json>,
    filterLang: Option<string>,
    filterCrs: Option<string>,
    fields: Option<FieldsValue>,
    sortby: Option<Json>)

  /** A field entry that starts with `-` asks for the field to be excluded. */
  predicate IsExclusion(field: string) {
    |field| > 0 && field[0] == '-'
  }

  /** The entries of `fields` without a leading `-`, in order. */
  function Included(fields: seq<string>): seq<string> {
    if fields == [] then []
    else
      var last := fields[|fields| - 1];
      Included(fields[..|fields| - 1]) + (if IsExclusion(last) then [] else [last])
  }

  /** The entries of `fields` with a leading `-` (kept on the entry), in order. */
  function Excluded(fields: seq<string>): seq<string> {
    if fields == [] then []
    else
      var last := fields[|fields| - 1];
      Excluded(fields[..|fields| - 1]) + (if IsExclusion(last) then [last] else [])
  }

  /** The include list holds exactly the entries that do not start with `-`. */
  lemma {:induction false} IncludedMembers(fields: seq<string>)
    ensures forall f :: f in Included(fields) <==> f in fields && !IsExclusion(f)
  {
    if fields != [] {
      var init := fields[..|fields| - 1];
      IncludedMembers(init);
      assert fields == init + [fields[|fields| - 1]];
    }
  }

  /** The exclude list holds exactly the entries that start with `-`, kept whole. */
  lemma {:induction false} ExcludedMembers(fields: seq<string>)
    ensures forall f :: f in Excluded(fields) <==> f in fields && IsExclusion(f)
  {
    if fields != [] {
      var init := fields[..|fields| - 1];
      ExcludedMembers(init);
      assert fields == init + [fields[|fields| - 1]];
    }
  }

  /** Every entry lands in exactly one of the two lists, as often as it
      occurs in `fields`. */
  lemma {:induction false} FieldsPartition(fields: seq<string>)
    ensures multiset(Included(fields)) + multiset(Excluded(fields)) == multiset(fields)
  {
    if fields != [] {
      var init, last := fields[..|fields| - 1], fields[|fields| - 1];
      FieldsPartition(init);
      FieldsStep(fields);
      assert fields == init + [last];
    }
  }

  /** The two lists together are as long as `fields`. */
  lemma FieldsCount(fields: seq<string>)
    ensures |Included(fields)| + |Excluded(fields)| == |fields|
  {
    FieldsPartition(fields);
    assert |multiset(Included(fields)) + multiset(Excluded(fields))| == |multiset(fields)|;
  }

  /** Sorting one more entry appends it to exactly one of the two lists. */
  lemma FieldsStep(fields: seq<string>)
    requires fields != []
    ensures var init, last := fields[..|fields| - 1], fields[|fields| - 1];
      && Included(fields) == Included(init) + (if IsExclusion(last) then [] else [last])
      && Excluded(fields) == Excluded(init) + (if IsExclusion(last) then [last] else [])
  {
  }

  /** The body sent to the stores: `filter_crs` is dropped, `filter_expr`
      and `filter_lang` become `filter` and `filter-lang` (the language only
      alongside a filter), `fields` becomes `include`/`exclude`, and a falsy
      `fields` or `sortby` disappears. A `fields` value of any other shape is
      refused with HTTP 400. */
  function Translate(req: SearchRequest): (r: Result<SearchBody, Error>)
    ensures r.Err? <==> req.fields.Some? && req.fields.value.FieldsOther? && req.fields.value.truthy
    ensures r.Err? ==> r.error == HttpError(400, UnexpectedFieldsType)
    ensures r.Ok? ==>
      var b := r.value;
      && b.collections == req.collections && b.ids == req.ids && b.bbox == req.bbox
      && b.intersects == req.intersects && b.datetime == req.datetime
      && b.limit == req.limit && b.offset == req.offset
      && (b.filter.Some? <==> req.filterExpr.Some? && Truthy(req.filterExpr.value))
      && (b.filter.Some? ==> b.filter == req.filterExpr)
      && (b.filterLang.Some? ==> b.filter.Some? && b.filterLang == req.filterLang)
      && (b.filter.Some? && req.filterLang.Some? && req.filterLang.value != "" ==> b.filterLang == req.filterLang)
      && (b.includes.Some? <==> req.fields.Some? && FieldsTruthy(req.fields.value))
      && (b.excludes.Some? <==> b.includes.Some?)
      && (b.sortby.Some? <==> req.sortby.Some? && Truthy(req.sortby.value))
      && (b.sortby.Some? ==> b.sortby == req.sortby)
    ensures r.Ok? && req.fields.Some? && req.fields.value.FieldsList? && req.fields.value.entries != [] ==>
      && r.value.includes == Some(Included(req.fields.value.entries))
      && r.value.excludes == Some(Excluded(req.fields.value.entries))
    ensures r.Ok? && req.fields.Some? && req.fields.value.FieldsDict? && FieldsTruthy(req.fields.value) ==>
      && r.value.includes == Some(req.fields.value.includes.GetOr([]))
      && r.value.excludes == Some(req.fields.value.excludes.GetOr([]))
  {
    var filter := if req.filterExpr.Some? && Truthy(req.filterExpr.value) then req.filterExpr else None;
    var lang := if filter.Some? && req.filterLang.Some? && req.filterLang.value != "" then req.filterLang else None;
    var sortby := if req.sortby.Some? && Truthy(req.sortby.value) then req.sortby else None;
    var base := SearchBody(req.collections, req.ids, req.bbox, req.intersects, req.datetime,
                           req.limit, req.offset, filter, lang, None, None, sortby);
    if req.fields.None? || !FieldsTruthy(req.fields.value) then Ok(base)
    else
      match req.fields.value
      case FieldsList(es) => Ok(base.(includes := Some(Included(es)), excludes := Some(Excluded(es))))
      case FieldsDict(i, e) => Ok(base.(includes := Some(i.GetOr([])), excludes := Some(e.GetOr([]))))
      case FieldsOther(_) => Err(HttpError(400, UnexpectedFieldsType))
  }

  /** The loop that sorts a `fields` list into include and exclude lists. */
  method SplitFields(fields: seq<string>) returns (includes: seq<string>, excludes: seq<string>)
    ensures includes == Included(fields)
    ensures excludes == Excluded(fields)
  {
    includes, excludes := [], [];
    var i := 0;
    while i < |fields|
      invariant 0 <= i <= |fields|
      invariant includes == Included(fields[..i])
      invariant excludes == Excluded(fields[..i])
    {
      var field := fields[i];
      if IsExclusion(field) {
        excludes := excludes + [field];
      } else {
        includes := includes + [field];
      }
      assert fields[..i + 1][..i] == fields[..i];
      i := i + 1;
    }
    assert fields[..|fields|] == fields;
  }

  /** `search_dict` rewritten key by key, as `Client.search` does. */
  method TranslateRequest(req: SearchRequest) returns (r: Result<SearchBody, Error>)
    ensures r == Translate(req)
  {
    // model_dump: every key but the filter and fields ones is carried over; filter_crs is popped
    var body := SearchBody(req.collections, req.ids, req.bbox, req.intersects, req.datetime,
                           req.limit, req.offset, None, None, None, None, None);
    if req.filterExpr.Some? && Truthy(req.filterExpr.value) {
      body := body.(filter := req.filterExpr);
    }
    if req.filterLang.Some? && req.filterLang.value != "" {
      body := body.(filterLang := req.filterLang);
    }
    if body.filter.None? {
      body := body.(filterLang := None);
    }
    if req.fields.Some? && FieldsTruthy(req.fields.value) {
      match req.fields.value {
        case FieldsList(es) =>
          var includes, excludes := SplitFields(es);
          body := body.(includes := Some(includes), excludes := Some(excludes));
        case FieldsDict(i, e) =>
          body := body.(includes := Some(i.GetOr([])), excludes := Some(e.GetOr([])));
        case FieldsOther(_) =>
          return Err(HttpError(400, UnexpectedFieldsType));
      }
    }
    if req.sortby.Some? && Truthy(req.sortby.value) {
      body := body.(sortby := req.sortby);
    }
    return Ok(body);
  }
}
