/** The Postgres adapter (databases/postgres.go): the text of the list query,
    the in-memory search filter over the returned rows, and the lookup by name.
    The database itself is a parameter: a function from query text to the rows
    it returns. */
module Databases {
  import opened Wrappers
  import opened Strconv
  import opened Strings
  import opened Models

  // ---------------------------------------------------------------------
  // The list query

  datatype Direction = Asc | Desc

  /** The LIMIT of a query: `ALL` rows, or a count. */
  datatype Limit = All | Count(n: Int64)

  /** What the query text asks the database for: rows ordered by name in
      `direction`, at most `limit` of them, after skipping `offset`. */
  datatype QuerySpec = QuerySpec(direction: Direction, limit: Limit, offset: Int64)

  /** The decisions `createListQuery` takes before it formats the text.
      A page number of 0 skips nothing; otherwise the page number times the
      page size is skipped, in Go's wrapping 64-bit arithmetic. So with no page
      size the page number has no effect at all. */
  function BuildQuery(f: ServiceFilter): (q: QuerySpec)
    ensures q.direction == Asc <==> f.sort == "asc"
    ensures q.limit == All <==> f.pageSize == 0
    ensures q.limit.Count? ==> q.limit.n == f.pageSize
    ensures q.offset == WrapInt64(f.pageNumber * f.pageSize)
    ensures f.pageSize == 0 ==> q.offset == 0
  {
    var direction := if f.sort == "asc" then Asc else Desc;
    var limit := if f.pageSize != 0 then Count(f.pageSize) else All;
    var offset := if f.pageNumber != 0 then WrapInt64(f.pageNumber * f.pageSize) else 0;
    QuerySpec(direction, limit, offset)
  }

  /** When the product fits in 64 bits the offset is exactly the number of
      rows on the pages before the requested one. */
  lemma OffsetSkipsEarlierPages(f: ServiceFilter)
    requires MinInt64 <= f.pageNumber * f.pageSize <= MaxInt64
    ensures BuildQuery(f).offset == f.pageNumber * f.pageSize
  {
  }

  const SelectPrefix: string := "SELECT * FROM services ORDER BY name "

  function DirectionText(d: Direction): string {
    match d
    case Asc => "ASC"
    case Desc => "DESC"
  }

  function LimitText(l: Limit): string {
    match l
    case All => "ALL"
    case Count(n) => Itoa(n)
  }

  /** The SQL text of a query spec. */
  function RenderQuery(q: QuerySpec): string {
    SelectPrefix + DirectionText(q.direction) + " LIMIT " + LimitText(q.limit) + " OFFSET " + Itoa(q.offset)
  }

  /** `createListQuery`. */
  function CreateListQuery(f: ServiceFilter): string {
    RenderQuery(BuildQuery(f))
  }

  /** The text up to the first space, and the text after that space. */
  function SplitAtSpace(s: string): (string, string) {
    if s == [] then ([], [])
    else if s[0] == ' ' then ([], s[1..])
    else
      var (token, rest) := SplitAtSpace(s[1..]);
      ([s[0]] + token, rest)
  }

  function ParseLimit(token: string): Option<Limit> {
    if token == "ALL" then Some(All)
    else match Atoi(token)
      case Ok(n) => Some(Count(n))
      case Err(_) => None
  }

  function ParseLimitOffset(d: Direction, s: string): Option<QuerySpec> {
    var (token, rest) := SplitAtSpace(s);
    if !("OFFSET " <= rest) then None
    else
      var limit := ParseLimit(token);
      var offset := Atoi(rest[|"OFFSET "|..]);
      if limit.None? || offset.Err? then None
      else Some(QuerySpec(d, limit.value, offset.value))
  }

  /** Reads the direction, limit and offset back out of a query text. */
  function ParseQuery(sql: string): Option<QuerySpec> {
    if !(SelectPrefix <= sql) then None
    else
      var rest := sql[|SelectPrefix|..];
      if "ASC LIMIT " <= rest then ParseLimitOffset(Asc, rest[|"ASC LIMIT "|..])
      else if "DESC LIMIT " <= rest then ParseLimitOffset(Desc, rest[|"DESC LIMIT "|..])
      else None
  }

  lemma {:induction false} SplitAtSpaceOf(token: string, rest: string)
    requires forall i :: 0 <= i < |token| ==> token[i] != ' '
    ensures SplitAtSpace(token + " " + rest) == (token, rest)
  {
    if token != [] {
      var s := token + " " + rest;
      assert s[0] == token[0] && s[1..] == token[1..] + " " + rest;
      SplitAtSpaceOf(token[1..], rest);
      assert [token[0]] + token[1..] == token;
    }
  }

  lemma ParseLimitText(limit: Limit)
    ensures ParseLimit(LimitText(limit)) == Some(limit)
  {
    match limit {
      case All =>
      case Count(n) =>
        ItoaAtoi(n);
        assert Itoa(n)[0] != "ALL"[0];
    }
  }

  lemma ParseLimitOffsetRender(d: Direction, limit: Limit, offset: Int64)
    ensures ParseLimitOffset(d, LimitText(limit) + " OFFSET " + Itoa(offset)) == Some(QuerySpec(d, limit, offset))
  {
    var limitText := LimitText(limit);
    var offsetText := Itoa(offset);
    var rest := "OFFSET " + offsetText;
    assert limitText + " OFFSET " + offsetText == limitText + " " + rest;
    assert forall i :: 0 <= i < |limitText| ==> limitText[i] != ' ';
    SplitAtSpaceOf(limitText, rest);
    assert "OFFSET " <= rest;
    assert rest[|"OFFSET "|..] == offsetText;
    ItoaAtoi(offset);
    ParseLimitText(limit);
  }

  lemma ParseDirection(d: Direction, tail: string)
    ensures ParseQuery(SelectPrefix + (DirectionText(d) + " LIMIT " + tail)) == ParseLimitOffset(d, tail)
  {
    var sql := SelectPrefix + (DirectionText(d) + " LIMIT " + tail);
    assert SelectPrefix <= sql;
    var rest := sql[|SelectPrefix|..];
    assert rest == DirectionText(d) + " LIMIT " + tail;
    match d {
      case Asc =>
        assert rest == "ASC LIMIT " + tail;
        assert "ASC LIMIT " <= rest;
        assert rest[|"ASC LIMIT "|..] == tail;
      case Desc =>
        assert rest == "DESC LIMIT " + tail;
        assert rest[0] == 'D';
        assert !("ASC LIMIT " <= rest);
        assert "DESC LIMIT " <= rest;
        assert rest[|"DESC LIMIT "|..] == tail;
    }
  }

  /** Parsing a rendered query gives back the query spec. */
  lemma ParseRender(q: QuerySpec)
    ensures ParseQuery(RenderQuery(q)) == Some(q)
  {
    var tail := LimitText(q.limit) + " OFFSET " + Itoa(q.offset);
    assert RenderQuery(q) == SelectPrefix + (DirectionText(q.direction) + " LIMIT " + tail);
    ParseDirection(q.direction, tail);
    ParseLimitOffsetRender(q.direction, q.limit, q.offset);
  }

  // The four distinct query texts of the unit test of `createListQuery`.

  lemma RenderDefaultExample()
    ensures RenderQuery(QuerySpec(Desc, All, 0))
      == "SELECT * FROM services ORDER BY name DESC LIMIT ALL OFFSET 0"
  {
    ItoaExamples();
  }

  lemma RenderAscendingExample()
    ensures RenderQuery(QuerySpec(Asc, All, 0))
      == "SELECT * FROM services ORDER BY name ASC LIMIT ALL OFFSET 0"
  {
    ItoaExamples();
  }

  lemma RenderLimitExample()
    ensures RenderQuery(QuerySpec(Desc, Count(10), 0))
      == "SELECT * FROM services ORDER BY name DESC LIMIT 10 OFFSET 0"
  {
    ItoaExamples();
  }

  lemma RenderPageExample()
    ensures RenderQuery(QuerySpec(Desc, Count(17), 646))
      == "SELECT * FROM services ORDER BY name DESC LIMIT 17 OFFSET 646"
  {
    ItoaExamples();
  }

  /** The text of the list query names exactly the direction, limit and
      offset `BuildQuery` chose for the filter. */
  lemma ListQueryNamesSpec(f: ServiceFilter)
    ensures ParseQuery(CreateListQuery(f)) == Some(BuildQuery(f))
  {
    ParseRender(BuildQuery(f));
  }

  /** The queries of the unit test of `createListQuery`. */
  lemma ListQueryExamples()
    ensures CreateListQuery(EmptyFilter)
      == "SELECT * FROM services ORDER BY name DESC LIMIT ALL OFFSET 0"
    ensures CreateListQuery(EmptyFilter.(sort := "desc"))
      == "SELECT * FROM services ORDER BY name DESC LIMIT ALL OFFSET 0"
    ensures CreateListQuery(EmptyFilter.(sort := "asc"))
      == "SELECT * FROM services ORDER BY name ASC LIMIT ALL OFFSET 0"
    ensures CreateListQuery(EmptyFilter.(pageSize := 10))
      == "SELECT * FROM services ORDER BY name DESC LIMIT 10 OFFSET 0"
    ensures CreateListQuery(EmptyFilter.(pageNumber := 17))
      == "SELECT * FROM services ORDER BY name DESC LIMIT ALL OFFSET 0"
    ensures CreateListQuery(EmptyFilter.(pageSize := 17, pageNumber := 38))
      == "SELECT * FROM services ORDER BY name DESC LIMIT 17 OFFSET 646"
  {
    RenderDefaultExample();
    RenderAscendingExample();
    RenderLimitExample();
    RenderPageExample();
    assert BuildQuery(EmptyFilter) == QuerySpec(Desc, All, 0);
    assert BuildQuery(EmptyFilter.(sort := "desc")) == QuerySpec(Desc, All, 0);
    assert BuildQuery(EmptyFilter.(sort := "asc")) == QuerySpec(Asc, All, 0);
    assert BuildQuery(EmptyFilter.(pageSize := 10)) == QuerySpec(Desc, Count(10), 0);
    assert BuildQuery(EmptyFilter.(pageNumber := 17)) == QuerySpec(Desc, All, 0);
    assert BuildQuery(EmptyFilter.(pageSize := 17, pageNumber := 38)) == QuerySpec(Desc, Count(17), 646);
  }

  // ---------------------------------------------------------------------
  // The in-memory search filter

  /** `containsSearch`. */
  function ContainsSearch(service: Service, filter: ServiceFilter): bool {
    if filter.search == "" then true
    else if Contains(service.name, filter.search) then true
    else if Contains(service.description, filter.search) then true
    else false
  }

  /** An empty search term keeps every service; otherwise the term must occur,
      case-sensitively, in the name or in the description. */
  lemma ContainsSearchSpec(service: Service, filter: ServiceFilter)
    ensures ContainsSearch(service, filter) <==>
      || filter.search == ""
      || IsSubstring(filter.search, service.name)
      || IsSubstring(filter.search, service.description)
  {
    ContainsSpec(service.name, filter.search);
    ContainsSpec(service.description, filter.search);
  }

  /** The cases of the unit test of `containsSearch`. */
  lemma ContainsSearchExamples()
    ensures var s := Service("aaa", "aaa bbb ccc", ["1", "2"]);
      && ContainsSearch(s, EmptyFilter)
      && ContainsSearch(s, EmptyFilter.(search := "a"))
      && ContainsSearch(s, EmptyFilter.(search := "bbb"))
      && !ContainsSearch(s, EmptyFilter.(search := "z"))
  {
    var s := Service("aaa", "aaa bbb ccc", ["1", "2"]);
    assert OccursAt("bbb", s.description, 4);
    ContainsSearchSpec(s, EmptyFilter.(search := "bbb"));
    MissingCharNotContained("z", s.name, 'z');
    MissingCharNotContained("z", s.description, 'z');
  }

  /** A service missing one character of the search term does not match. */
  lemma NotMatchedWhenMissing(service: Service, filter: ServiceFilter, c: char)
    requires c in filter.search && c !in service.name && c !in service.description
    ensures !ContainsSearch(service, filter)
  {
    MissingCharNotContained(filter.search, service.name, c);
    MissingCharNotContained(filter.search, service.description, c);
  }

  /** The services that pass `ContainsSearch`, in their original order. */
  function Matching(services: seq<Service>, filter: ServiceFilter): seq<Service> {
    if services == [] then []
    else
      var last := services[|services| - 1];
      Matching(services[..|services| - 1], filter) + (if ContainsSearch(last, filter) then [last] else [])
  }

  lemma MatchingAppend(services: seq<Service>, s: Service, filter: ServiceFilter)
    ensures Matching(services + [s], filter)
      == Matching(services, filter) + (if ContainsSearch(s, filter) then [s] else [])
  {
    assert (services + [s])[..|services|] == services;
  }

  /** `Matching` is the in-order subsequence of the services that pass the
      search: `idx` lists, increasing, the positions it keeps, and every
      position that passes is listed. */
  lemma {:induction false} MatchingIsSubsequence(services: seq<Service>, filter: ServiceFilter)
    returns (idx: seq<nat>)
    ensures |idx| == |Matching(services, filter)|
    ensures forall j :: 0 <= j < |idx| ==>
      idx[j] < |services| && Matching(services, filter)[j] == services[idx[j]]
    ensures forall j, k :: 0 <= j < k < |idx| ==> idx[j] < idx[k]
    ensures forall i :: 0 <= i < |services| ==> (i in idx <==> ContainsSearch(services[i], filter))
  {
    if services == [] {
      idx := [];
    } else {
      var n := |services| - 1;
      var front := services[..n];
      var prev := MatchingIsSubsequence(front, filter);
      if ContainsSearch(services[n], filter) {
        idx := prev + [n];
      } else {
        idx := prev;
      }
    }
  }

  /** The filter never adds services. */
  lemma {:induction false} MatchingNoLonger(services: seq<Service>, filter: ServiceFilter)
    ensures |Matching(services, filter)| <= |services|
  {
    if services != [] {
      MatchingNoLonger(services[..|services| - 1], filter);
    }
  }

  /** With no search term every service is kept. */
  lemma {:induction false} MatchingEmptySearch(services: seq<Service>, filter: ServiceFilter)
    requires filter.search == ""
    ensures Matching(services, filter) == services
  {
    if services != [] {
      MatchingEmptySearch(services[..|services| - 1], filter);
    }
  }

  /** A search term holding a character that no service has anywhere keeps
      no service. */
  lemma {:induction false} MatchingNoneWhenMissing(services: seq<Service>, filter: ServiceFilter, c: char)
    requires c in filter.search
    requires forall i :: 0 <= i < |services| ==> c !in services[i].name && c !in services[i].description
    ensures Matching(services, filter) == []
  {
    if services != [] {
      var n := |services| - 1;
      MatchingNoneWhenMissing(services[..n], filter, c);
      NotMatchedWhenMissing(services[n], filter, c);
    }
  }

  lemma MatchingOfThree(x: Service, y: Service, z: Service, filter: ServiceFilter)
    ensures Matching([x, y, z], filter)
      == (if ContainsSearch(x, filter) then [x] else [])
       + (if ContainsSearch(y, filter) then [y] else [])
       + (if ContainsSearch(z, filter) then [z] else [])
  {
    MatchingAppend([], x, filter);
    assert [] + [x] == [x];
    MatchingAppend([x], y, filter);
    assert [x] + [y] == [x, y];
    MatchingAppend([x, y], z, filter);
    assert [x, y] + [z] == [x, y, z];
  }

  /** The in-memory part of a list case of the integration test: the rows of
      the catalog zzz, abc, aaa, in the descending order the query asks for,
      filtered by "a" give abc, aaa. */
  lemma MatchingSearchExample()
    ensures var s1 := Service("aaa", "aaa bbb ccc", ["1", "2"]);
      var s2 := Service("abc", "ddd eee fff", ["1"]);
      var s3 := Service("zzz", "ggg hhh iii", ["1", "2", "9"]);
      Matching([s3, s2, s1], EmptyFilter.(search := "a")) == [s2, s1]
  {
    var s1 := Service("aaa", "aaa bbb ccc", ["1", "2"]);
    var s2 := Service("abc", "ddd eee fff", ["1"]);
    var s3 := Service("zzz", "ggg hhh iii", ["1", "2", "9"]);
    var a := EmptyFilter.(search := "a");
    assert ContainsSearch(s1, a) && ContainsSearch(s2, a);
    assert 'a' in a.search;
    NotMatchedWhenMissing(s3, a, 'a');
    MatchingOfThree(s3, s2, s1, a);
  }

  /** The same catalog filtered by "nothing" gives no service. */
  lemma MatchingNoMatchExample()
    ensures var s1 := Service("aaa", "aaa bbb ccc", ["1", "2"]);
      var s2 := Service("abc", "ddd eee fff", ["1"]);
      var s3 := Service("zzz", "ggg hhh iii", ["1", "2", "9"]);
      Matching([s3, s2, s1], EmptyFilter.(search := "nothing")) == []
  {
    var s1 := Service("aaa", "aaa bbb ccc", ["1", "2"]);
    var s2 := Service("abc", "ddd eee fff", ["1"]);
    var s3 := Service("zzz", "ggg hhh iii", ["1", "2", "9"]);
    MatchingNoneWhenMissing([s3, s2, s1], EmptyFilter.(search := "nothing"), 'n');
  }

  // ---------------------------------------------------------------------
  // Rows returned by the database

  /** One step of `rows.Next()`/`rows.Scan`: a decoded service or the scan error. */
  datatype Row = Scanned(service: Service) | ScanFailed(message: string)

  /** What the database hands back for a query: the rows in order, and the
      error `rows.Err()` reports once they are exhausted. */
  datatype Response = Response(rows: seq<Row>, err: Option<string>)

  /** The connection pool, seen as the rows it returns for a query text. */
  type Database = string -> Response

  /** Scanning rows in order: all services when every row scans, otherwise the
      error of the first row that does not. */
  function Scan(rows: seq<Row>): Result<seq<Service>, string> {
    if rows == [] then Ok([])
    else
      match Scan(rows[..|rows| - 1])
      case Err(m) => Err(m)
      case Ok(services) =>
        match rows[|rows| - 1]
        case Scanned(s) => Ok(services + [s])
        case ScanFailed(m) => Err(m)
  }

  lemma {:induction false} ScanSpec(rows: seq<Row>)
    ensures Scan(rows).Ok? <==> forall i :: 0 <= i < |rows| ==> rows[i].Scanned?
    ensures Scan(rows).Ok? ==>
      |Scan(rows).value| == |rows| &&
      forall i :: 0 <= i < |rows| ==> Scan(rows).value[i] == rows[i].service
    ensures Scan(rows).Err? ==>
      exists k :: 0 <= k < |rows| && rows[k] == ScanFailed(Scan(rows).error) &&
        forall j :: 0 <= j < k ==> rows[j].Scanned?
  {
    if rows != [] {
      var n := |rows| - 1;
      ScanSpec(rows[..n]);
      if Scan(rows[..n]).Err? {
        var k :| 0 <= k < n && rows[..n][k] == ScanFailed(Scan(rows[..n]).error) &&
          forall j :: 0 <= j < k ==> rows[..n][j].Scanned?;
        assert rows[k] == ScanFailed(Scan(rows).error);
      }
    }
  }

  /** One more row scanned: its service is appended, or its error ends the scan. */
  lemma ScanNext(rows: seq<Row>, i: nat)
    requires i < |rows| && Scan(rows[..i]).Ok?
    ensures Scan(rows[..i + 1]) == match rows[i]
      case Scanned(s) => Ok(Scan(rows[..i]).value + [s])
      case ScanFailed(m) => Err(m)
  {
    assert rows[..i + 1][..i] == rows[..i];
  }

  /** A scan error on a prefix ends the scan with that error. */
  lemma {:induction false} ScanErrorPersists(rows: seq<Row>, i: nat)
    requires i <= |rows| && Scan(rows[..i]).Err?
    ensures Scan(rows) == Scan(rows[..i])
  {
    if i < |rows| {
      var n := |rows| - 1;
      assert rows[..n][..i] == rows[..i];
      ScanErrorPersists(rows[..n], i);
    } else {
      assert rows[..i] == rows;
    }
  }

  /** What `ListServiesWithFilter` returns for the database's response:
      (nil, the error) when a row does not scan, and otherwise the non-nil list
      of scanned services that pass the search, in row order, with
      `rows.Err()`. */
  function Listing(response: Response, filter: ServiceFilter): (Option<seq<Service>>, Option<string>) {
    match Scan(response.rows)
    case Err(m) => (None, Some(m))
    case Ok(scanned) => (Some(Matching(scanned, filter)), response.err)
  }

  /** The listing is nil only after a scan error, whose message it reports:
      that of the first row that does not scan. Otherwise it is the services
      of the rows that pass the search, in row order: `idx` lists, increasing,
      the rows it keeps, and every row that passes is listed. The error is
      then `rows.Err()`. */
  lemma ListingSpec(response: Response, filter: ServiceFilter) returns (idx: seq<nat>)
    ensures Listing(response, filter).0.None? <==>
      exists k :: 0 <= k < |response.rows| && response.rows[k].ScanFailed?
    ensures Listing(response, filter).0.None? ==>
      exists k :: 0 <= k < |response.rows| &&
        response.rows[k] == ScanFailed(Listing(response, filter).1.value) &&
        forall j :: 0 <= j < k ==> response.rows[j].Scanned?
    ensures Listing(response, filter).0.Some? ==>
      && Listing(response, filter).1 == response.err
      && |idx| == |Listing(response, filter).0.value| <= |response.rows|
      && (forall j :: 0 <= j < |idx| ==>
            idx[j] < |response.rows| && response.rows[idx[j]] == Scanned(Listing(response, filter).0.value[j]))
      && (forall j, k :: 0 <= j < k < |idx| ==> idx[j] < idx[k])
      && (forall i :: 0 <= i < |response.rows| ==>
            (i in idx <==> response.rows[i].Scanned? && ContainsSearch(response.rows[i].service, filter)))
  {
    ScanSpec(response.rows);
    idx := [];
    if Scan(response.rows).Ok? {
      MatchingNoLonger(Scan(response.rows).value, filter);
      idx := MatchingIsSubsequence(Scan(response.rows).value, filter);
    }
  }

  /** `ListServiesWithFilter`: runs the list query on the database and scans
      the rows it returns. */
  method ListServicesWithFilter(db: Database, filter: ServiceFilter)
    returns (services: Option<seq<Service>>, err: Option<string>)
    ensures (services, err) == Listing(db(CreateListQuery(filter)), filter)
  {
    var query := CreateListQuery(filter);
    var response := db(query);
    var rows := response.rows;
    var found: seq<Service> := [];
    var i := 0;
    while i < |rows|
      invariant 0 <= i <= |rows|
      invariant Scan(rows[..i]).Ok?
      invariant found == Matching(Scan(rows[..i]).value, filter)
    {
      ScanNext(rows, i);
      var row := rows[i];
      if row.ScanFailed? {
        ScanErrorPersists(rows, i + 1);
        return None, Some(row.message);
      }
      MatchingAppend(Scan(rows[..i]).value, row.service, filter);
      if ContainsSearch(row.service, filter) {
        found := found + [row.service];
      }
      i := i + 1;
    }
    assert rows[..i] == rows;
    return Some(found), response.err;
  }

  // ---------------------------------------------------------------------
  // Lookup by name

  /** The first service with exactly this name, if any. */
  function FirstNamed(services: seq<Service>, name: string): Option<Service> {
    if services == [] then None
    else
      var earlier := FirstNamed(services[..|services| - 1], name);
      if earlier.Some? then earlier
      else if services[|services| - 1].name == name then Some(services[|services| - 1])
      else None
  }

  lemma {:induction false} FirstNamedSpec(services: seq<Service>, name: string)
    ensures FirstNamed(services, name).None? <==>
      forall i :: 0 <= i < |services| ==> services[i].name != name
    ensures FirstNamed(services, name).Some? ==>
      exists k :: 0 <= k < |services| && services[k] == FirstNamed(services, name).value &&
        services[k].name == name && forall j :: 0 <= j < k ==> services[j].name != name
  {
    if services != [] {
      var n := |services| - 1;
      FirstNamedSpec(services[..n], name);
      if FirstNamed(services[..n], name).Some? {
        var k :| 0 <= k < n && services[..n][k] == FirstNamed(services[..n], name).value &&
          services[..n][k].name == name && forall j :: 0 <= j < k ==> services[..n][j].name != name;
        assert services[k] == FirstNamed(services, name).value;
      }
    }
  }

  /** The first exact-name match found by scanning from the front is the
      one `FirstNamed` picks. */
  lemma FirstNamedFound(services: seq<Service>, name: string, i: nat)
    requires i < |services| && services[i].name == name
    requires forall j :: 0 <= j < i ==> services[j].name != name
    ensures FirstNamed(services, name) == Some(services[i])
  {
    FirstNamedSpec(services, name);
  }

  /** Filtering by a name as search term keeps every service of that exact
      name, so it does not change which one comes first. */
  lemma {:induction false} FirstNamedOfMatching(services: seq<Service>, name: string)
    ensures FirstNamed(Matching(services, EmptyFilter.(search := name)), name) == FirstNamed(services, name)
  {
    if services != [] {
      var n := |services| - 1;
      var filter := EmptyFilter.(search := name);
      var last := services[n];
      FirstNamedOfMatching(services[..n], name);
      var kept := Matching(services[..n], filter);
      if ContainsSearch(last, filter) {
        assert (kept + [last])[..|kept|] == kept;
      } else {
        assert last.name != name;
        assert kept + [] == kept;
      }
    }
  }

  /** The lookup cases of the integration test, with the rows zzz, abc, aaa,
      aaaa in the descending name order the query asks for: the first one
      named exactly "aaa" is aaa, not aaaa before it, and none is named
      "fake". */
  lemma FirstNamedExamples()
    ensures var s1 := Service("aaa", "aaa bbb ccc", ["1", "2"]);
      var s2 := Service("abc", "ddd eee fff", ["1"]);
      var s3 := Service("zzz", "ggg hhh iii", ["1", "2", "9"]);
      var s4 := Service("aaaa", "jjj", ["1", "2"]);
      && FirstNamed([s3, s2, s4, s1], "aaa") == Some(s1)
      && FirstNamed([s3, s2, s4, s1], "fake") == None
  {
    var s1 := Service("aaa", "aaa bbb ccc", ["1", "2"]);
    var s2 := Service("abc", "ddd eee fff", ["1"]);
    var s3 := Service("zzz", "ggg hhh iii", ["1", "2", "9"]);
    var s4 := Service("aaaa", "jjj", ["1", "2"]);
    FirstNamedFound([s3, s2, s4, s1], "aaa", 3);
    FirstNamedSpec([s3, s2, s4, s1], "fake");
  }

  /** The row holds a scanned service of exactly this name. */
  predicate NamedRow(row: Row, name: string) {
    row.Scanned? && row.service.name == name
  }

  /** What `GetServiceByName` returns for the database's response to the
      lookup's list query: the listing's error, or the first listed service
      of exactly that name (nil when there is none) with no error. */
  function Lookup(response: Response, name: string): (Option<Service>, Option<string>) {
    var (services, err) := Listing(response, EmptyFilter.(search := name));
    if err.Some? then (None, err)
    else (FirstNamed(services.value, name), None)
  }

  /** A lookup fails exactly when the listing fails. Otherwise, as a name
      contains itself, the search drops no service of that name, and the
      result is the first row, in row order, whose name is exactly `name`:
      nil, not an error, when there is none. */
  lemma LookupSpec(response: Response, name: string)
    ensures Lookup(response, name).1 == Listing(response, EmptyFilter.(search := name)).1
    ensures Lookup(response, name).1.Some? ==> Lookup(response, name).0 == None
    ensures Lookup(response, name).1.None? ==>
      && (Lookup(response, name).0.None? <==>
            forall i :: 0 <= i < |response.rows| ==> !NamedRow(response.rows[i], name))
      && (Lookup(response, name).0.Some? ==>
            exists k :: 0 <= k < |response.rows| &&
              response.rows[k] == Scanned(Lookup(response, name).0.value) &&
              Lookup(response, name).0.value.name == name &&
              forall j :: 0 <= j < k ==> !NamedRow(response.rows[j], name))
  {
    if Scan(response.rows).Ok? {
      FirstNamedOfMatching(Scan(response.rows).value, name);
      FirstNamedOfRows(response.rows, name);
    }
  }

  /** `FirstNamed` over scanned rows, stated on the rows themselves. */
  lemma FirstNamedOfRows(rows: seq<Row>, name: string)
    requires Scan(rows).Ok?
    ensures FirstNamed(Scan(rows).value, name).None? <==>
      forall i :: 0 <= i < |rows| ==> !NamedRow(rows[i], name)
    ensures FirstNamed(Scan(rows).value, name).Some? ==>
      exists k :: 0 <= k < |rows| &&
        rows[k] == Scanned(FirstNamed(Scan(rows).value, name).value) &&
        FirstNamed(Scan(rows).value, name).value.name == name &&
        forall j :: 0 <= j < k ==> !NamedRow(rows[j], name)
  {
    ScanSpec(rows);
    FirstNamedSpec(Scan(rows).value, name);
  }

  /** The same cases stated on the database's response: the rows zzz, abc,
      aaaa, aaa with no trailing error. */
  lemma LookupExamples()
    ensures var s1 := Service("aaa", "aaa bbb ccc", ["1", "2"]);
      var s2 := Service("abc", "ddd eee fff", ["1"]);
      var s3 := Service("zzz", "ggg hhh iii", ["1", "2", "9"]);
      var s4 := Service("aaaa", "jjj", ["1", "2"]);
      var response := Response([Scanned(s3), Scanned(s2), Scanned(s4), Scanned(s1)], None);
      && Lookup(response, "aaa") == (Some(s1), None)
      && Lookup(response, "fake") == (None, None)
  {
    var s1 := Service("aaa", "aaa bbb ccc", ["1", "2"]);
    var s2 := Service("abc", "ddd eee fff", ["1"]);
    var s3 := Service("zzz", "ggg hhh iii", ["1", "2", "9"]);
    var s4 := Service("aaaa", "jjj", ["1", "2"]);
    var response := Response([Scanned(s3), Scanned(s2), Scanned(s4), Scanned(s1)], None);
    assert Scan(response.rows) == Ok([s3, s2, s4, s1]) by {
      ScanSpec(response.rows);
      assert forall i :: 0 <= i < 4 ==> response.rows[i].Scanned?;
      var scanned := Scan(response.rows).value;
      assert |scanned| == 4;
      assert scanned[0] == s3 && scanned[1] == s2 && scanned[2] == s4 && scanned[3] == s1;
      assert scanned == [s3, s2, s4, s1];
    }
    FirstNamedOfMatching([s3, s2, s4, s1], "aaa");
    FirstNamedOfMatching([s3, s2, s4, s1], "fake");
    FirstNamedExamples();
  }

  /** `GetServiceByName`: lists with the name as search term and no sort or
      paging, then scans the list from the front for the exact name. */
  method GetServiceByName(db: Database, name: string)
    returns (service: Option<Service>, err: Option<string>)
    ensures (service, err) == Lookup(db(CreateListQuery(EmptyFilter.(search := name))), name)
  {
    var services, listErr := ListServicesWithFilter(db, EmptyFilter.(search := name));
    if listErr.Some? {
      return None, listErr;
    }
    var listed := services.value;
    for i := 0 to |listed|
      invariant forall j :: 0 <= j < i ==> listed[j].name != name
    {
      if listed[i].name == name {
        FirstNamedFound(listed, name, i);
        return Some(listed[i]), None;
      }
    }
    FirstNamedSpec(listed, name);
    return None, None;
  }
}
