/** Turning the query parameters of `GET /service` into a list request
    (`createFilterFromQuery` in routes/service.go). */
module Routes {
  import opened Wrappers
  import opened Strconv
  import opened Models

  /** The decoded query string: each key with its values, in order. */
  type Params = map<string, seq<string>>

  /** Why a request's parameters were refused. */
  datatype QueryError =
    | NotSingleParam(key: string, values: seq<string>)  // search or sort given other than once
    | BadInteger(numError: NumError)                     // a paging value `Atoi` refuses
    | InvalidFilter(invalid: ValidationError)            // the filter fails `Validate`

  /** A decoded query string never maps a key to an empty list, and the code
      reads the first value of the paging keys without checking. */
  predicate PagingValuesPresent(params: Params) {
    && ("page_size" in params ==> params["page_size"] != [])
    && ("page_number" in params ==> params["page_number"] != [])
  }

  /** The value of a text parameter, or the empty text when it is absent. */
  function TextParam(params: Params, key: string): string
    requires key in params ==> |params[key]| == 1
  {
    if key in params then params[key][0] else ""
  }

  /** The value of a paging parameter, or 0 when it is absent. */
  function IntParam(params: Params, key: string): Int64
    requires key in params ==> params[key] != [] && Atoi(params[key][0]).Ok?
  {
    if key in params then Atoi(params[key][0]).value else 0
  }

  predicate SingleOrAbsent(params: Params, key: string) {
    key in params ==> |params[key]| == 1
  }

  predicate IntegerOrAbsent(params: Params, key: string)
    requires PagingValuesPresent(params)
    requires key == "page_size" || key == "page_number"
  {
    key in params ==> Atoi(params[key][0]).Ok?
  }

  /** What the request asks for: the four known keys checked in the order
      search, sort, page_size, page_number, the first failure reported, and
      the assembled filter validated last. */
  function FilterFromQuery(params: Params): Result<ServiceFilter, QueryError>
    requires PagingValuesPresent(params)
  {
    if !SingleOrAbsent(params, "search") then Err(NotSingleParam("search", params["search"]))
    else if !SingleOrAbsent(params, "sort") then Err(NotSingleParam("sort", params["sort"]))
    else if !IntegerOrAbsent(params, "page_size") then Err(BadInteger(Atoi(params["page_size"][0]).error))
    else if !IntegerOrAbsent(params, "page_number") then Err(BadInteger(Atoi(params["page_number"][0]).error))
    else
      var filter := ServiceFilter(TextParam(params, "search"), TextParam(params, "sort"),
                                  IntParam(params, "page_size"), IntParam(params, "page_number"));
      match Validate(filter)
      case None => Ok(filter)
      case Some(e) => Err(InvalidFilter(e))
  }

  /** `createFilterFromQuery`: starts from the zero filter and sets one field
      per known key present, returning at the first refused parameter, then
      returns the filter only if it validates. */
  method CreateFilterFromQuery(params: Params) returns (r: Result<ServiceFilter, QueryError>)
    requires PagingValuesPresent(params)
    ensures r == FilterFromQuery(params)
  {
    var filter := EmptyFilter;

    if "search" in params {
      var v := params["search"];
      if |v| != 1 {
        return Err(NotSingleParam("search", v));
      }
      filter := filter.(search := v[0]);
    }

    if "sort" in params {
      var v := params["sort"];
      if |v| != 1 {
        return Err(NotSingleParam("sort", v));
      }
      filter := filter.(sort := v[0]);
    }

    if "page_size" in params {
      var v := params["page_size"];
      var size := Atoi(v[0]);
      if size.Err? {
        return Err(BadInteger(size.error));
      }
      filter := filter.(pageSize := size.value);
    }

    if "page_number" in params {
      var v := params["page_number"];
      var size := Atoi(v[0]);
      if size.Err? {
        return Err(BadInteger(size.error));
      }
      filter := filter.(pageNumber := size.value);
    }

    var err := Validate(filter);
    if err.Some? {
      return Err(InvalidFilter(err.value));
    }
    return Ok(filter);
  }

  // ---------------------------------------------------------------------
  // What the parsing promises

  /** Only filters that pass `Validate` come out, and a filter that does not
      pass is reported with `Validate`'s own error. */
  lemma ParsedFiltersAreValid(params: Params)
    requires PagingValuesPresent(params)
    ensures FilterFromQuery(params).Ok? ==> Validate(FilterFromQuery(params).value) == None
    ensures FilterFromQuery(params).Err? && FilterFromQuery(params).error.InvalidFilter? ==>
      SingleOrAbsent(params, "search") && SingleOrAbsent(params, "sort") &&
      Validate(ServiceFilter(TextParam(params, "search"), TextParam(params, "sort"),
                             IntParam(params, "page_size"), IntParam(params, "page_number")))
        == Some(FilterFromQuery(params).error.invalid)
  {
  }

  /** A search or sort key given with any number of values other than one is
      refused, the search key first. */
  lemma RepeatedTextParamRefused(params: Params, key: string)
    requires PagingValuesPresent(params)
    requires key == "search" || key == "sort"
    requires key in params && |params[key]| != 1
    requires key == "sort" ==> SingleOrAbsent(params, "search")
    ensures FilterFromQuery(params) == Err(NotSingleParam(key, params[key]))
  {
  }

  /** A paging value `Atoi` refuses is reported with `Atoi`'s error, once the
      text keys (and, for the page number, the page size) have passed. */
  lemma BadPagingValueRefused(params: Params, key: string)
    requires PagingValuesPresent(params)
    requires key == "page_size" || key == "page_number"
    requires SingleOrAbsent(params, "search") && SingleOrAbsent(params, "sort")
    requires key == "page_number" ==> IntegerOrAbsent(params, "page_size")
    requires key in params && Atoi(params[key][0]).Err?
    ensures FilterFromQuery(params) == Err(BadInteger(Atoi(params[key][0]).error))
  {
  }

  /** Absent keys leave the zero values: an empty query gives the empty
      filter. */
  lemma EmptyQueryGivesEmptyFilter()
    ensures FilterFromQuery(map[]) == Ok(EmptyFilter)
  {
  }

  /** A parsed filter holds exactly the values given, and the defaults for
      absent keys. */
  lemma ParsedFilterFields(params: Params)
    requires PagingValuesPresent(params)
    requires FilterFromQuery(params).Ok?
    ensures var f := FilterFromQuery(params).value;
      && f.search == (if "search" in params then params["search"][0] else "")
      && f.sort == (if "sort" in params then params["sort"][0] else "")
      && f.pageSize == (if "page_size" in params then Atoi(params["page_size"][0]).value else 0)
      && f.pageNumber == (if "page_number" in params then Atoi(params["page_number"][0]).value else 0)
  {
  }

  /** Both queries give `key` the same values, or both leave it out. */
  predicate SameValues(params: Params, other: Params, key: string) {
    (key in params <==> key in other) && (key in params ==> params[key] == other[key])
  }

  /** Both queries give `key` the same first value, or both leave it out. */
  predicate SameFirstValue(params: Params, other: Params, key: string)
    requires PagingValuesPresent(params) && PagingValuesPresent(other)
    requires key == "page_size" || key == "page_number"
  {
    (key in params <==> key in other) && (key in params ==> params[key][0] == other[key][0])
  }

  /** The outcome depends on the four known keys only, and on nothing but the
      first value of each paging key: other keys and further paging values
      are ignored. */
  lemma OnlyKnownKeysMatter(params: Params, other: Params)
    requires PagingValuesPresent(params) && PagingValuesPresent(other)
    requires SameValues(params, other, "search") && SameValues(params, other, "sort")
    requires SameFirstValue(params, other, "page_size") && SameFirstValue(params, other, "page_number")
    ensures FilterFromQuery(params) == FilterFromQuery(other)
  {
  }

  /** A query giving each known key one value, with paging values `Atoi`
      reads and a filter that validates, gives exactly that filter. */
  lemma SingleValuesGiveFilter(params: Params, f: ServiceFilter)
    requires "search" in params && params["search"] == [f.search]
    requires "sort" in params && params["sort"] == [f.sort]
    requires "page_size" in params && params["page_size"] != [] && Atoi(params["page_size"][0]) == Ok(f.pageSize)
    requires "page_number" in params && params["page_number"] != [] && Atoi(params["page_number"][0]) == Ok(f.pageNumber)
    requires Validate(f) == None
    ensures PagingValuesPresent(params) && FilterFromQuery(params) == Ok(f)
  {
  }

  /** A full, valid query; the unknown key is ignored. */
  lemma ValidQueryExample()
    ensures FilterFromQuery(map["search" := ["abc"], "sort" := ["asc"], "page_size" := ["17"],
                                "page_number" := ["38"], "other" := ["x", "y"]])
      == Ok(ServiceFilter("abc", "asc", 17, 38))
  {
    var params := map["search" := ["abc"], "sort" := ["asc"], "page_size" := ["17"],
                      "page_number" := ["38"], "other" := ["x", "y"]];
    var f := ServiceFilter("abc", "asc", 17, 38);
    assert params["search"] == ["abc"] && params["sort"] == ["asc"];
    assert params["page_size"] == ["17"] && params["page_number"] == ["38"];
    assert Atoi("17") == Ok(17) && Atoi("38") == Ok(38) by { AtoiExamples(); }
    ValidateFullFilterExample();
    SingleValuesGiveFilter(params, f);
  }

  /** With both a bad search and a bad sort, the search is reported. */
  lemma InvalidSearchExample()
    ensures FilterFromQuery(map["search" := ["drop;table"], "sort" := ["wrong"]])
      == Err(InvalidFilter(InvalidSearch("drop;table")))
  {
    assert !IsAlphaNumChar("drop;table"[4]);
  }

  /** A repeated search is reported before a bad page size. */
  lemma RepeatedSearchExample()
    ensures FilterFromQuery(map["search" := ["a", "b"], "page_size" := ["ten"]])
      == Err(NotSingleParam("search", ["a", "b"]))
  {
  }
}
