/**
 * The search router: the `GET /` search endpoint (search-type dispatch, the
 * filter dict it hands to the service, reranking and the response fields) and
 * the placeholder `GET /autocomplete`.
 */
module SearchApi {
  import opened Py
  import Search

  // ---------------------------------------------------------------------------
  // Autocomplete

  /** `autocomplete`: five fixed continuations of `q`, cut to `size`. */
  function Autocomplete(q: string, size: int): (suggestions: seq<string>)
    ensures |suggestions| <= 5
    ensures size >= 0 ==> |suggestions| == Min(size, 5)
    ensures size < 0 ==> |suggestions| == Max(0, 5 + size)
    ensures forall k :: 0 <= k < |suggestions| ==> StartsWith(suggestions[k], q)
  {
    var all := [q + " research", q + " papers", q + " methodology", q + " review", q + " analysis"];
    assert forall k :: 0 <= k < |all| ==> all[k][..|q|] == q;
    Take(all, size)
  }

  /** The suggestions come in the fixed order research, papers, methodology,
      review, analysis. */
  lemma AutocompleteOrder(q: string, size: int)
    requires size >= 5
    ensures Autocomplete(q, size) ==
              [q + " research", q + " papers", q + " methodology", q + " review", q + " analysis"]
  {
  }

  // ---------------------------------------------------------------------------
  // Search

  /** The optional filters of a search request. */
  datatype SearchFilters = SearchFilters(authors: Option<seq<string>>, topics: Option<seq<string>>,
                                         yearFrom: Option<int>, yearTo: Option<int>,
                                         journals: Option<seq<string>>)

  function ListValue(v: Option<seq<string>>): Search.FilterValue
  {
    if v.Some? then Search.List(v.value) else Search.Scalar(None)
  }

  function IntValue(v: Option<int>): Search.FilterValue
  {
    Search.Scalar(if v.Some? then Some(IntToString(v.value)) else None)
  }

  /** `filters.dict()`: all five fields in declaration order, unset ones as None. */
  function FilterDict(f: SearchFilters): (items: seq<(string, Search.FilterValue)>)
    ensures |items| == 5 && items[4] == ("journals", ListValue(f.journals))
  {
    [("authors", ListValue(f.authors)), ("topics", ListValue(f.topics)),
     ("year_from", IntValue(f.yearFrom)), ("year_to", IntValue(f.yearTo)),
     ("journals", ListValue(f.journals))]
  }

  /** Which search a `search_type` selects. */
  datatype SearchKind = KeywordKind | VectorKind | HybridKind

  /** "keyword" and "vector" select those searches; every other value is hybrid. */
  function Dispatch(searchType: string): (kind: SearchKind)
    ensures kind == KeywordKind <==> searchType == "keyword"
    ensures kind == VectorKind <==> searchType == "vector"
    ensures kind == HybridKind <==> searchType != "keyword" && searchType != "vector"
  {
    if searchType == "keyword" then KeywordKind
    else if searchType == "vector" then VectorKind
    else HybridKind
  }

  datatype SearchResponse<P> = SearchResponse(results: seq<P>, total: int, page: int, size: int)

  /** The endpoint's answer: the response, or the status of the HTTP error it
      raises. */
  datatype SearchResult<P> = Error(status: nat) | Ok(response: SearchResponse<P>)

  /** The filters as a dict when any were given, else None. */
  function FiltersDict(filters: Option<SearchFilters>): Option<seq<(string, Search.FilterValue)>>
  {
    if filters.Some? then Some(FilterDict(filters.value)) else None
  }

  /** The hits the selected search returns (before reranking); None when the
      index client raises. `es` answers a query with its hits, or None when the
      client raises. */
  function Hits<P>(q: string, kind: SearchKind, filters: Option<SearchFilters>, size: int,
                   es: Search.EsQuery -> Option<seq<P>>, idOf: P -> Option<string>): Option<seq<P>>
  {
    var query := Search.KeywordQueryOf(q, FiltersDict(filters), size);
    match kind
    case KeywordKind => es(query)
    case VectorKind => Some(Search.VectorSearch(q, size))
    case HybridKind =>
      if es(query).None? then None
      else Some(Search.Papers(Search.Ranking(es(query).value, [], idOf, size, 0.5)))
  }

  /** `search`: the selected search, reranked to `size`; `total` counts the hits
      before reranking, and `page` and `size` are echoed. A keyword or hybrid
      search whose index query raises is answered with 500. */
  function SearchEndpoint<P>(q: string, searchType: string, page: int, size: int,
                             filters: Option<SearchFilters>,
                             es: Search.EsQuery -> Option<seq<P>>, idOf: P -> Option<string>): (r: SearchResult<P>)
    ensures r.Error? <==> Dispatch(searchType) != VectorKind && es(Search.KeywordQueryOf(q, FiltersDict(filters), size)).None?
    ensures r.Error? ==> r.status == 500
    ensures r.Ok? ==>
            var hits := Hits(q, Dispatch(searchType), filters, size, es, idOf).value;
            && r.response.total == |hits|
            && |r.response.results| <= |hits| && r.response.results == hits[..|r.response.results|]
            && (size >= 0 ==> |r.response.results| == Min(size, |hits|))
            && r.response.page == page && r.response.size == size
  {
    var hits := Hits(q, Dispatch(searchType), filters, size, es, idOf);
    if hits.None? then Error(500)
    else Ok(SearchResponse(Search.RerankResults(q, hits.value, size), |hits.value|, page, size))
  }

  /** A vector search never reaches the index, never fails, and answers with no
      results. */
  lemma VectorSearchIsEmpty<P>(q: string, page: int, size: int, filters: Option<SearchFilters>,
                               es: Search.EsQuery -> Option<seq<P>>, idOf: P -> Option<string>)
    ensures SearchEndpoint(q, "vector", page, size, filters, es, idOf) == Ok(SearchResponse([], 0, page, size))
  {
  }

  /** Whatever filters a request sets, the query the endpoint builds filters on
      `journals` alone: the filter dict always ends with that key. */
  lemma OnlyJournalsFilter(q: string, f: SearchFilters, size: int)
    ensures Search.KeywordQueryOf(q, Some(FilterDict(f)), size).filter ==
              Some([if f.journals.Some? then Search.Terms("journals", f.journals.value)
                    else Search.Term("journals", None)])
  {
  }
}
