# psql-example: the list query, in Dafny

This project models the core of a small Go web service. The service keeps a
catalog of services in Postgres and lists them over HTTP. The model covers
the path a request takes from its query string to its result:

- `routes/service.go`, `createFilterFromQuery`: the query parameters become a
  `ServiceFilter`. This is module `Routes`. The Go function updates a filter
  field by field and returns at the first refused parameter, so it is the
  method `Routes.CreateFilterFromQuery`. That method is proved equal to the
  specification function `Routes.FilterFromQuery`, and the lemmas are stated
  about that function.
- `models/service.go`: the `Service` record, the `ServiceFilter` record, the
  `IsAlphaNum` pattern and `Validate`. This is module `Models`, written as pure
  functions.
- `databases/postgres.go`:
  - `createListQuery` turns a filter into the SQL text. It is pure, and it is
    split in two. `BuildQuery` makes the direction, limit and offset
    decisions. `RenderQuery` formats them.
  - The renderer's partner is a parser, `ParseQuery`. It reads the direction,
    limit and offset back out of the text, and a round-trip lemma connects the
    two.
  - `containsSearch` is the case-sensitive substring filter that runs after
    the query.
  - `ListServiesWithFilter` and `GetServiceByName` are loops. They are the
    methods `Databases.ListServicesWithFilter` and `Databases.GetServiceByName`.
    They are proved equal to the specification functions `Listing` and
    `Lookup`, and lemmas about those functions relate them to the rows the
    database returned.
- The module `Strconv` holds the two Go library conversions the code relies
  on, `strconv.Atoi` and `strconv.Itoa`, and Go's 64-bit `int`. The module
  `Strings` holds `strings.Contains`.

Go's `int` is 64 bits wide. `Int64` is that range. `Atoi` refuses any text
outside it. The offset `page_number * page_size` wraps around modulo 2^64, as
Go's multiplication does.

The database is a parameter, of type `Database = string -> Response`: a
function from query text to what the driver hands back. A `Response` holds
the rows in order and the error that `rows.Err()` reports once they are
exhausted. A row is either a scanned service or a scan error. The code drops
the error of `db.Query` (postgres.go:39). A failed query therefore shows up
in the model as a response with no rows and an error, which is where pgx
reports it.

Two behaviours of the code that a reader might not expect:

- A reader might expect every repeated parameter to be refused. The code
  refuses only a repeated `search` or `sort`. For `page_size` and
  `page_number` it reads the first value and ignores the rest
  (`Routes.OnlyKnownKeysMatter`).
- A reader might expect the paging values to be non-negative. The code
  accepts any integer `Atoi` reads. `Validate` does not look at the paging
  fields (`Models.ValidateIgnoresPaging`), so a negative value reaches the
  query text.

## Model

| member | source | states |
|---|---|---|
| Models.IsAlphaNum | models/service.go:34 | The pattern `^[a-zA-Z0-9]+$` as a predicate: a non-empty text of ASCII letters and digits. Its meaning is used through the contract of `Models.Validate`. |
| Models.Validate | models/service.go:34-47 | The filter passes exactly when every character of the search term is in [a-zA-Z0-9] (the empty term passes) and the sort is "", "asc" or "desc". A bad search term is reported with its text whenever one character is outside the class, even if the sort is also bad. A bad sort is reported with its text exactly when the search term is fine. |
| Models.ValidateIgnoresPaging | models/service.go:37-47 | Changing the page size or page number, to negative values too, never changes the verdict. |
| Models.EmptySearchAndSortAreValid | models/service.go:37-47 | A filter with empty search and sort is valid for any paging. |
| Models.ValidateExamples | models/service_test.go:17-22 | The six cases of the `Validate` unit test: four valid filters, then "wrong" refused as a sort and "drop;table" refused as a search. |
| Models.ValidateFullFilterExample | models/service.go:37-47 | A filter with the search "abc", the sort "asc" and paging validates. |
| Strconv.Atoi | routes/service.go:80-84 | `strconv.Atoi` succeeds exactly on an optional sign followed by at least one decimal digit whose value lies in the 64-bit range, and returns that value. Every error carries the refused text. The error is `ErrSyntax` exactly when the text is malformed and its leading digits do not already exceed the unsigned 64-bit range. Otherwise it is `ErrRange`: an overflowing digit prefix is reported before a later bad character, as Go's digit loop does. |
| Strconv.Itoa | databases/postgres.go:66-71 | `strconv.Itoa` writes the canonical decimal text. It starts with '-' exactly for negative numbers, has digits only after that, and has no leading zero except in "0" itself, so "-0" is never written. Together with `Strconv.ItoaAtoi`, which fixes the value, this determines the text. |
| Strconv.ItoaAtoi | databases/postgres.go:66-71 | For every 64-bit number, reading back the text `Itoa` writes gives the same number. |
| Strconv.ItoaExamples | databases/postgres_test.go:135-140 | `Itoa` writes 0, 10, 17, 38 and 646 as the unit test's query texts show them. |
| Strconv.AtoiExamples | routes/service.go:79-93 | "17" and "38" read as 17 and 38. |
| Strconv.WrapInt64 | databases/postgres.go:71 | The 64-bit product differs from the true product by a multiple of 2^64, and equals it when it fits. |
| Strings.Contains | databases/postgres.go:82-86 | `strings.Contains`, trying each start position in turn. Its contract is `Strings.ContainsSpec`. |
| Strings.ContainsSpec | databases/postgres.go:82-86 | `strings.Contains(s, sub)` holds exactly when `sub` occurs in `s` at some position. The empty text occurs everywhere. |
| Strings.MissingCharNotContained | databases/postgres.go:82-86 | A text missing one character of `sub` does not contain `sub`. |
| Databases.BuildQuery | databases/postgres.go:58-72 | The order is ascending exactly when the sort is "asc": "desc", "" and anything else give descending. The limit is ALL exactly when the page size is 0, and otherwise it is the page size. The offset is the wrapped product of page number and page size, so it is 0 whenever the page size is 0. |
| Databases.OffsetSkipsEarlierPages | databases/postgres.go:69-72 | When the product fits in 64 bits, the offset is the page number times the page size: the rows of all earlier pages. |
| Databases.RenderQuery | databases/postgres.go:74 | The `Sprintf` of the query text from the direction, limit and offset. Its partner is the parser `ParseQuery`, and the two are connected by `Databases.ParseRender`. |
| Databases.CreateListQuery | databases/postgres.go:58-75 | `createListQuery`: the text of `Databases.BuildQuery`'s choices. Its contract is `Databases.BuildQuery` together with `Databases.ListQueryNamesSpec`. |
| Databases.ParseRender | databases/postgres.go:74 | Parsing the rendered text of any direction, limit and offset gives those three back. |
| Databases.ListQueryNamesSpec | databases/postgres.go:58-75 | The text of the list query for any filter names exactly the direction, limit and offset `BuildQuery` chose for it. |
| Databases.ListQueryExamples | databases/postgres_test.go:135-140 | The six query texts of the `createListQuery` unit test, including the page number that is ignored without a page size. |
| Databases.ContainsSearch | databases/postgres.go:77-91 | `containsSearch`: an empty term first, then the name, then the description. Its contract is `Databases.ContainsSearchSpec`. |
| Databases.ContainsSearchSpec | databases/postgres.go:77-91 | A service passes the search exactly when the term is empty, or occurs case-sensitively in the name, or in the description. |
| Databases.ContainsSearchExamples | databases/postgres_test.go:159-162 | The four cases of the `containsSearch` unit test: the empty term, a hit in the name, a hit only in the description, and a miss. |
| Databases.NotMatchedWhenMissing | databases/postgres.go:77-91 | A service in whose name and description some character of the term appears nowhere does not pass. |
| Databases.Matching | databases/postgres.go:41-53 | The services the loop keeps, as a function of the scanned services. Its contract is `Databases.MatchingIsSubsequence`. |
| Databases.MatchingIsSubsequence | databases/postgres.go:41-53 | The filtered list is the in-order subsequence of the rows' services that pass the search. It keeps each one that passes and no other. |
| Databases.MatchingNoLonger | databases/postgres.go:41-53 | Filtering never adds services. |
| Databases.MatchingEmptySearch | databases/postgres.go:78-80 | With no search term, every scanned service is kept, in order. |
| Databases.MatchingNoneWhenMissing | databases/postgres.go:41-53 | A term holding a character that no service has anywhere keeps nothing: the result is the empty list. |
| Databases.MatchingSearchExample | databases/postgres_test.go:44-51 | The rows zzz, abc, aaa filtered by "a" give abc, aaa. |
| Databases.MatchingNoMatchExample | databases/postgres_test.go:52-59 | The same rows filtered by "nothing" give the empty list. |
| Databases.Scan | databases/postgres.go:42-48 | Scanning the rows in order until the first scan error. Its contract is `Databases.ScanSpec`. |
| Databases.ScanSpec | databases/postgres.go:42-48 | Scanning succeeds exactly when every row scans, and then yields each row's service in order. Otherwise it fails with the error of the first row that does not scan. |
| Databases.ScanErrorPersists | databases/postgres.go:46-48 | Once a row fails to scan, no later row changes the outcome. |
| Databases.Listing | databases/postgres.go:37-56 | What `ListServiesWithFilter` returns for the database's response. Its contract is `Databases.ListingSpec`. |
| Databases.ListingSpec | databases/postgres.go:37-56 | The list is nil exactly when some row fails to scan, and the error is then that of the first such row. Otherwise the list is the services of the rows that pass the search, in row order: a strictly increasing list of row positions, holding every row that passes and no other, gives the list entry by entry. The error is then `rows.Err()`. |
| Databases.ListServicesWithFilter | databases/postgres.go:37-56 | The method returns `Listing` of the database's response to the filter's query text. |
| Databases.FirstNamed | databases/postgres.go:100-106 | The result of the loop over the listed services. Its contract is `Databases.FirstNamedSpec`. |
| Databases.FirstNamedSpec | databases/postgres.go:100-106 | The scan from the front finds nothing exactly when no service has the name. Otherwise it returns a service of exactly that name with none before it. |
| Databases.FirstNamedFound | databases/postgres.go:100-104 | The first position whose name is an exact match holds the service the scan returns. |
| Databases.FirstNamedOfMatching | databases/postgres.go:95-106 | A name contains itself, so searching by the name keeps every service of that exact name. The first exact match is therefore the same with or without the search. |
| Databases.FirstNamedOfRows | databases/postgres.go:100-106 | Over fully scanned rows, the first exact match is the first row, in row order, holding a service of that name. |
| Databases.FirstNamedExamples | databases/postgres_test.go:100-111 | Among zzz, abc, aaaa, aaa, in the descending name order the query asks for, the first service named exactly "aaa" is aaa and not aaaa before it. None is named "fake". |
| Databases.Lookup | databases/postgres.go:94-107 | What `GetServiceByName` returns for the database's response. Its contract is `Databases.LookupSpec`. |
| Databases.LookupExamples | databases/postgres_test.go:100-111 | For a response holding the rows zzz, abc, aaaa, aaa and no error, looking up "aaa" gives aaa with no error, and looking up "fake" gives nil with no error. |
| Databases.LookupSpec | databases/postgres.go:94-107 | A lookup fails exactly when the listing does, and then carries its error and no service. Otherwise it returns the first row, in row order, whose service has exactly that name: nil with no error when there is none. |
| Databases.GetServiceByName | databases/postgres.go:94-107 | The method returns `Lookup` of the database's response to the query text for the name as search term, with no sort or paging. |
| Routes.FilterFromQuery | routes/service.go:62-100 | What `createFilterFromQuery` returns. Its contract is given by the `Routes` lemmas below. |
| Routes.CreateFilterFromQuery | routes/service.go:62-100 | The method returns `FilterFromQuery`: the keys are checked as search, sort, page_size, page_number, the first failure is reported, and the assembled filter is validated last. |
| Routes.ParsedFiltersAreValid | routes/service.go:95-99 | Every filter that comes out passes `Validate`. A validation failure reports `Validate`'s own error for the filter the parameters describe. |
| Routes.RepeatedTextParamRefused | routes/service.go:65-77 | A search or sort given with a number of values other than one is refused, with the key and its values. The search is checked before the sort. |
| Routes.BadPagingValueRefused | routes/service.go:79-93 | A paging value `Atoi` refuses is reported with `Atoi`'s error once the text keys have passed. The page size is checked before the page number. |
| Routes.EmptyQueryGivesEmptyFilter | routes/service.go:62-63 | An empty query gives the zero filter. |
| Routes.ParsedFilterFields | routes/service.go:62-93 | A parsed filter holds exactly the values given, the first value of each paging key, and the zero value for each absent key. |
| Routes.OnlyKnownKeysMatter | routes/service.go:62-100 | The outcome depends on the four known keys only, and on just the first value of each paging key. |
| Routes.SingleValuesGiveFilter | routes/service.go:62-100 | A query giving each known key exactly one value, with paging values `Atoi` reads and a filter that validates, yields exactly that filter. |
| Routes.ValidQueryExample | routes/service.go:62-100 | A full valid query with an extra key gives the filter it spells out. |
| Routes.InvalidSearchExample | routes/service.go:95-97 | With both a bad search and a bad sort, the search is the one reported. |
| Routes.RepeatedSearchExample | routes/service.go:65-68 | A repeated search is reported before a malformed page size is looked at. |

## Left out

- `main.go`, the HTTP handlers, `sendErr` and the router are left out. They are I/O around the core: status codes, JSON encoding and the `name` path variable.
- `NewPostgres`, `Close` and the connection pool are left out. The database is a parameter.
- The SQL engine is left out, and so is the ordering, LIMIT and OFFSET it applies. The model states what the query text asks for (`ListQueryNamesSpec`), and the rows come back in whatever order the database gives. The integration test's cases that depend on the engine's sort and paging ("sort assending", "give correct page") are therefore not modelled.
- `context.Context` and cancellation are left out, as is concurrency between requests.
- Error message texts are left out. Errors are datatypes carrying the same data: the rejected text, the parameter's values, or `strconv.NumError` with its cause. Database errors are opaque strings.
- Pointer identity is left out. A nil result is `None`, and an empty list is distinct from nil.
- `IsAlphaNum`: the regular expression is written as the character predicate it denotes. The regexp engine is not modelled.
- Strconv.Atoi: underscores and base prefixes are not modelled, because `Atoi` uses base 10, which accepts neither.
- Negative paging values are not given a meaning beyond the text they produce. What Postgres does with a negative LIMIT or OFFSET is outside the model.
- Strings are sequences of characters. Go's `strings.Contains` and `strconv.Atoi` work on bytes, and `regexp` works on runes. The two views agree on valid UTF-8, but Go strings can also hold invalid byte sequences, for example a name from a `%FF`-escaped path, and the model's strings cannot.
- PagingValuesPresent: Go panics on `v[0]` when `page_size` or `page_number` maps to an empty value list (routes/service.go:80, :88), and the model does not include that panic. Its one caller passes a decoded query string, which never maps a key to an empty list.
- `versions` is carried through as a sequence of strings, and Postgres array decoding is not modelled.
