/** The catalog entry and the list request (models/service.go). */
module Models {
  import opened Wrappers
  import opened Strconv

  /** A catalog entry. The service only reads these; nothing here writes one. */
  datatype Service = Service(name: string, description: string, versions: seq<string>)

  /** A list request: a search term, a sort direction on the name, and paging. */
  datatype ServiceFilter = ServiceFilter(search: string, sort: string, pageSize: Int64, pageNumber: Int64)

  /** The zero value of the Go struct: no search, default sort, no paging. */
  const EmptyFilter: ServiceFilter := ServiceFilter("", "", 0, 0)

  predicate IsAlphaNumChar(c: char) {
    'a' <= c <= 'z' || 'A' <= c <= 'Z' || '0' <= c <= '9'
  }

  /** `IsAlphaNum`: the whole text matches `^[a-zA-Z0-9]+$`. */
  predicate IsAlphaNum(s: string) {
    |s| > 0 && forall i :: 0 <= i < |s| ==> IsAlphaNumChar(s[i])
  }

  /** The sort values a request may carry. */
  predicate IsSortValue(sort: string) {
    sort == "" || sort == "asc" || sort == "desc"
  }

  /** The two errors `Validate` reports, each carrying the rejected text. */
  datatype ValidationError = InvalidSearch(search: string) | InvalidSort(sort: string)

  /** `ServiceFilter.Validate`: `None` is Go's nil error. The search term is
      checked first, then the sort value; the paging fields are not looked at. */
  function Validate(f: ServiceFilter): (err: Option<ValidationError>)
    ensures err == None <==>
      (forall i :: 0 <= i < |f.search| ==> IsAlphaNumChar(f.search[i])) && IsSortValue(f.sort)
    ensures err == Some(InvalidSearch(f.search)) <==>
      exists i :: 0 <= i < |f.search| && !IsAlphaNumChar(f.search[i])
    ensures err == Some(InvalidSort(f.sort)) <==>
      (forall i :: 0 <= i < |f.search| ==> IsAlphaNumChar(f.search[i])) && !IsSortValue(f.sort)
  {
    if f.search != "" && !IsAlphaNum(f.search) then
      Some(InvalidSearch(f.search))
    else if f.sort != "" && (f.sort != "asc" && f.sort != "desc") then
      Some(InvalidSort(f.sort))
    else
      None
  }

  /** Validation depends on the search and sort texts only: any page size and
      page number, negative ones included, leave the verdict unchanged. */
  lemma ValidateIgnoresPaging(f: ServiceFilter, pageSize: Int64, pageNumber: Int64)
    ensures Validate(f.(pageSize := pageSize, pageNumber := pageNumber)) == Validate(f)
  {
  }

  /** The empty filter is valid whatever its paging. */
  lemma EmptySearchAndSortAreValid(pageSize: Int64, pageNumber: Int64)
    ensures Validate(ServiceFilter("", "", pageSize, pageNumber)) == None
  {
  }

  /** The cases of the unit test of `Validate`. */
  lemma ValidateExamples()
    ensures Validate(EmptyFilter) == None
    ensures Validate(EmptyFilter.(sort := "asc")) == None
    ensures Validate(EmptyFilter.(sort := "desc")) == None
    ensures Validate(EmptyFilter.(search := "anandkumarpatel")) == None
    ensures Validate(EmptyFilter.(sort := "wrong")) == Some(InvalidSort("wrong"))
    ensures Validate(EmptyFilter.(search := "drop;table")) == Some(InvalidSearch("drop;table"))
  {
    assert !IsAlphaNumChar("drop;table"[4]);
  }

  /** A filter with a search term, a sort and paging validates. */
  lemma ValidateFullFilterExample()
    ensures Validate(ServiceFilter("abc", "asc", 17, 38)) == None
  {
    assert IsAlphaNumChar("abc"[0]) && IsAlphaNumChar("abc"[1]) && IsAlphaNumChar("abc"[2]);
  }
}
