/** Query-parameter parsing for GET searches: limit clamping, comma lists
    and bounding boxes. Parsing one number (Python's `float`) is a parameter
    `parse` of the functions that need it. */
module Search {
  import opened Common

  /** The largest page size a request may ask for. */
  const MaxLimit: nat := 10000

  /** Clamps a page size to `MaxLimit`: never above it, unchanged below it. */
  function Crop(v: nat): (r: nat)
    ensures r <= MaxLimit
    ensures v <= MaxLimit ==> r == v
    ensures v > MaxLimit ==> r == MaxLimit
  {
    if v > MaxLimit then MaxLimit else v
  }

  lemma CropIdempotent(v: nat)
    ensures Crop(Crop(v)) == Crop(v)
  {
  }

  /** The `Limit` type of a request: a positive integer, then cropped.
      `None` is a validation failure. */
  function ValidateLimit(v: int): (r: Option<nat>)
    ensures r.Some? <==> v > 0
    ensures r.Some? ==> 1 <= r.value <= MaxLimit
    ensures r.Some? && v <= MaxLimit ==> r.value == v
  {
    if v > 0 then Some(Crop(v)) else None
  }

  /** Python's `s.split(",")`: never empty, and no piece holds a comma. */
  function Split(s: string): (parts: seq<string>)
    ensures |parts| >= 1
    ensures forall i :: 0 <= i < |parts| ==> ',' !in parts[i]
  {
    if s == [] then [""]
    else
      var rest := Split(s[1..]);
      if s[0] == ',' then [""] + rest
      else [[s[0]] + rest[0]] + rest[1..]
  }

  /** Python's `",".join(parts)`. */
  function Join(parts: seq<string>): string {
    if |parts| == 0 then ""
    else if |parts| == 1 then parts[0]
    else parts[0] + "," + Join(parts[1..])
  }

  lemma {:induction false} JoinSplit(s: string)
    ensures Join(Split(s)) == s
  {
    if s != [] {
      var rest := Split(s[1..]);
      JoinSplit(s[1..]);
      if s[0] == ',' {
        assert Split(s) == [""] + rest;
        assert ([""] + rest)[1..] == rest;
      } else {
        var parts := [[s[0]] + rest[0]] + rest[1..];
        assert Split(s) == parts;
        if |rest| == 1 {
          assert Join(parts) == [s[0]] + rest[0];
        } else {
          assert parts[1..] == rest[1..];
          assert Join(rest) == rest[0] + "," + Join(rest[1..]);
          assert Join(parts) == [s[0]] + rest[0] + "," + Join(rest[1..]);
        }
        assert s == [s[0]] + s[1..];
      }
    }
  }

  lemma {:induction false} SplitNoComma(p: string)
    requires ',' !in p
    ensures Split(p) == [p]
  {
    if p != [] {
      SplitNoComma(p[1..]);
      assert p == [p[0]] + p[1..];
    }
  }

  lemma {:induction false} SplitAtComma(p: string, t: string)
    requires ',' !in p
    ensures Split(p + "," + t) == [p] + Split(t)
  {
    if p == [] {
      assert p + "," + t == [','] + t;
      assert (p + "," + t)[1..] == t;
    } else {
      var s := p + "," + t;
      assert s[0] == p[0];
      assert s[1..] == p[1..] + "," + t;
      SplitAtComma(p[1..], t);
      var rest := Split(s[1..]);
      assert rest == [p[1..]] + Split(t);
      assert [p[0]] + p[1..] == p;
    }
  }

  /** Splitting a comma-joined list of comma-free pieces gives the pieces back. */
  lemma {:induction false} SplitJoin(parts: seq<string>)
    requires |parts| >= 1
    requires forall i :: 0 <= i < |parts| ==> ',' !in parts[i]
    ensures Split(Join(parts)) == parts
  {
    if |parts| == 1 {
      SplitNoComma(parts[0]);
    } else {
      SplitJoin(parts[1..]);
      SplitAtComma(parts[0], Join(parts[1..]));
      assert [parts[0]] + parts[1..] == parts;
    }
  }

  /** `str2list`: `None` for the empty string, else the comma-separated pieces. */
  function Str2List(x: string): (r: Option<seq<string>>)
    ensures r.None? <==> x == ""
    ensures r.Some? ==> |r.value| >= 1 && Join(r.value) == x
    ensures r.Some? ==> forall i :: 0 <= i < |r.value| ==> ',' !in r.value[i]
  {
    if x != "" then JoinSplit(x); Some(Split(x)) else None
  }

  /** Parses every token as a number; fails when any token is not one. */
  function ParseNumbers(tokens: seq<string>, parse: string -> Option<real>): (r: Option<seq<real>>)
    ensures r.Some? <==> forall i :: 0 <= i < |tokens| ==> parse(tokens[i]).Some?
    ensures r.Some? ==> |r.value| == |tokens|
    ensures r.Some? ==> forall i :: 0 <= i < |tokens| ==> parse(tokens[i]) == Some(r.value[i])
  {
    if tokens == [] then Some([])
    else
      match parse(tokens[0])
      case None => None
      case Some(v) =>
        match ParseNumbers(tokens[1..], parse)
        case None => None
        case Some(vs) => Some([v] + vs)
  }

  /** `str2bbox`: `Ok(None)` for the empty string; otherwise the text must
      split into 4 or 6 numbers, else HTTP 400. */
  function Str2BBox(x: string, parse: string -> Option<real>): (r: Result<Option<seq<real>>, Error>)
    ensures r == Ok(None) <==> x == ""
    ensures x != "" && |Split(x)| != 4 && |Split(x)| != 6 ==>
      r == Err(HttpError(400, InvalidBBoxLength(Split(x))))
    ensures r.Err? <==>
      x != "" && (|Split(x)| !in {4, 6} || exists i :: 0 <= i < |Split(x)| && parse(Split(x)[i]).None?)
    ensures r.Err? ==> r.error.HttpError? && r.error.status == 400
    ensures r.Ok? && r.value.Some? ==>
      && |r.value.value| == |Split(x)|
      && |r.value.value| in {4, 6}
      && forall i :: 0 <= i < |Split(x)| ==> parse(Split(x)[i]) == Some(r.value.value[i])
  {
    if x != "" then
      var parts := Split(x);
      if |parts| != 4 && |parts| != 6 then Err(HttpError(400, InvalidBBoxLength(parts)))
      else
        match ParseNumbers(parts, parse)
        case None => Err(HttpError(400, InvalidBBox))
        case Some(vs) => Ok(Some(vs))
    else Ok(None)
  }

  /** `_collection_converter`: an absent or empty parameter means "no list". */
  function CollectionConverter(val: Option<string>): (r: Option<seq<string>>)
    ensures r.None? <==> val.None? || val.value == ""
    ensures r.Some? ==> Join(r.value) == val.value
    ensures r.Some? ==> forall i :: 0 <= i < |r.value| ==> ',' !in r.value[i]
  {
    if val.Some? && val.value != "" then Str2List(val.value) else None
  }

  /** `_ids_converter`: the same rule as for collections. */
  function IdsConverter(val: Option<string>): (r: Option<seq<string>>)
    ensures r.None? <==> val.None? || val.value == ""
    ensures r.Some? ==> Join(r.value) == val.value
    ensures r.Some? ==> forall i :: 0 <= i < |r.value| ==> ',' !in r.value[i]
  {
    if val.Some? && val.value != "" then Str2List(val.value) else None
  }

  /** `_bbox_converter`: an absent or empty parameter means "no bbox". */
  function BBoxConverter(val: Option<string>, parse: string -> Option<real>): (r: Result<Option<seq<real>>, Error>)
    ensures val.None? || val.value == "" ==> r == Ok(None)
    ensures val.Some? && val.value != "" ==> r == Str2BBox(val.value, parse)
  {
    if val.Some? && val.value != "" then Str2BBox(val.value, parse) else Ok(None)
  }

  /** A comma-joined list of non-empty, comma-free ids parses back to the
      same list. */
  lemma ListRoundTrip(ids: seq<string>)
    requires |ids| >= 1
    requires forall i :: 0 <= i < |ids| ==> ids[i] != "" && ',' !in ids[i]
    ensures CollectionConverter(Some(Join(ids))) == Some(ids)
  {
    SplitJoin(ids);
    assert Split("") == [""];
  }

  function MapRender(xs: seq<real>, render: real -> string): (r: seq<string>)
    ensures |r| == |xs| && forall i :: 0 <= i < |xs| ==> r[i] == render(xs[i])
  {
    seq(|xs|, i requires 0 <= i < |xs| => render(xs[i]))
  }

  /** A bbox rendered as `",".join(map(str, bbox))` parses back to itself,
      provided each rendered number is comma-free and parses to itself. */
  lemma BBoxRoundTrip(bbox: seq<real>, render: real -> string, parse: string -> Option<real>)
    requires |bbox| == 4 || |bbox| == 6
    requires forall i :: 0 <= i < |bbox| ==> ',' !in render(bbox[i]) && parse(render(bbox[i])) == Some(bbox[i])
    ensures Str2BBox(Join(MapRender(bbox, render)), parse) == Ok(Some(bbox))
  {
    var parts := MapRender(bbox, render);
    SplitJoin(parts);
    assert Join(parts) == parts[0] + "," + Join(parts[1..]);
    assert Join(parts) != "";
    var r := ParseNumbers(parts, parse);
    assert r.Some?;
    assert r.value == bbox;
  }
}
