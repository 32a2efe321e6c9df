/**
 * The OpenAlex client helpers: identifier classification and the request URL
 * of `resolve_work`, the citing-works query and the bounded fetch of the
 * referenced works.
 *
 * HTTP is an oracle: `get` answers a GET of a work URL and `search` answers
 * the citing-works query; either may raise, answer with a status other than
 * 200, or answer 200 with a body that fails to parse.
 */
module OpenAlex {
  import opened Py

  const Base: string := "https://api.openalex.org"

  /** The marker whose following segment is an OpenAlex id. */
  const IdMarker: string := "openalex.org/"

  /** The `author` object of an authorship entry. */
  datatype Author = Author(displayName: Option<string>, name: Option<string>)

  /** One entry of a work's `authorships`: a dict, whose `author` object is None
      when it is missing or empty and which may carry a `display_name` of its
      own, or a bare value. */
  datatype Authorship = AuthorDict(author: Option<Author>, displayName: Option<string>)
                      | AuthorValue(name: string)

  /** The fields of an OpenAlex work object that the backend reads. `ids` is
      None when the work's `ids` is not a dict, else its `openalex` entry.
      `abstractIndexWords` are the keys of `abstract_inverted_index` in order
      ([] when it is missing or empty); `referencedWorks` is [] when missing. */
  datatype Work = Work(id: Option<string>, openalexId: Option<string>, doi: Option<string>,
                       displayName: Option<string>, title: Option<string>,
                       authorships: seq<Authorship>, publicationYear: Option<int>,
                       ids: Option<Option<string>>, referencedWorks: seq<string>,
                       abstractText: Option<string>, abstractIndexWords: seq<string>)

  /** The outcome of one HTTP exchange: an exception, or a status with the
      parsed JSON body (None when parsing raises). */
  datatype HttpResult<J> = Raised | Reply(status: int, json: Option<J>)

  /** `_normalize_doi`: trimmed and lower-cased. */
  function NormalizeDoi(doi: string): (r: string)
    ensures |r| <= |doi|
    ensures Trimmed(r)
    ensures forall i :: 0 <= i < |r| ==> LowerChar(r[i]) == r[i]
  {
    Lower(Strip(doi))
  }

  lemma NormalizeDoiIdempotent(doi: string)
    ensures NormalizeDoi(NormalizeDoi(doi)) == NormalizeDoi(doi)
  {
    StripLower(Strip(doi));
    LowerIdempotent(Strip(doi));
  }

  /** A trimmed identifier is taken for a DOI when it holds both '/' and '.'
      and does not start, in any case, with the OpenAlex site. */
  predicate IsDoi(id: string)
  {
    '/' in id && '.' in id && !StartsWith(Lower(id), "https://openalex.org")
  }

  /** An identifier starting with `prefix` is cut to the segment between the
      first "openalex.org/" and the next one (or the end), when it holds that
      marker; any other identifier is kept. `resolve_work` tests for "http",
      `get_citing_works` for "https://". */
  function AfterMarker(id: string, prefix: string): (path: string)
    ensures !StartsWith(id, prefix) ==> path == id
  {
    if StartsWith(id, prefix) then
      var parts := SplitOn(id, IdMarker);
      if |parts| > 1 then parts[1] else id
    else id
  }

  /** The path under `BASE/works/` that `resolve_work` requests for a trimmed
      identifier: "doi:" and the normalised DOI, or the work path. */
  function RequestPath(id: string): (path: string)
    ensures IsDoi(id) ==> StartsWith(path, "doi:")
  {
    if IsDoi(id) then "doi:" + NormalizeDoi(id) else AfterMarker(id, "http")
  }

  /** The URL `resolve_work` requests, or None when it requests nothing. */
  function ResolveUrl(identifier: string): (url: Option<string>)
    ensures url.None? <==> identifier == ""
  {
    if identifier == "" then None
    else Some(Base + "/works/" + RequestPath(Strip(identifier)))
  }

  /** Surrounding whitespace never changes the request. */
  lemma ResolveUrlIgnoresPadding(identifier: string)
    requires Strip(identifier) != ""
    ensures ResolveUrl(Strip(identifier)) == ResolveUrl(identifier)
  {
    var id := Strip(identifier);
    assert Strip(id) == id;
  }

  /** Lower-casing keeps an identifier a DOI. */
  lemma IsDoiLower(id: string)
    requires IsDoi(id)
    ensures IsDoi(Lower(id))
  {
    var i :| 0 <= i < |id| && id[i] == '/';
    assert Lower(id)[i] == '/';
    var j :| 0 <= j < |id| && id[j] == '.';
    assert Lower(id)[j] == '.';
    LowerIdempotent(id);
  }

  /** A DOI is looked up the same whatever its letter case. */
  lemma ResolveUrlDoiCaseInsensitive(identifier: string)
    requires identifier != "" && IsDoi(Strip(identifier))
    ensures ResolveUrl(Lower(identifier)) == ResolveUrl(identifier)
  {
    var id := Strip(identifier);
    StripLower(identifier);
    assert Strip(Lower(identifier)) == Lower(id);
    IsDoiLower(id);
    assert Lower(identifier) != "" by {
      assert |Lower(identifier)| == |identifier|;
    }
    NormalizeDoiIdempotent(identifier);
    StripLower(id);
    LowerIdempotent(id);
    assert NormalizeDoi(Lower(identifier)) == NormalizeDoi(identifier);
  }

  /** The OpenAlex site, as its work URLs begin. */
  const Site: string := "https://openalex.org/"

  lemma FindAt(s: string, sep: string, k: nat)
    requires |sep| > 0 && OccursAt(s, sep, k)
    requires forall m :: 0 <= m < k ==> !OccursAt(s, sep, m)
    ensures FindFrom(s, sep, 0) == k
  {
  }

  /** The first "openalex.org/" of an OpenAlex URL follows "https://". */
  lemma FindIdMarker(w: string)
    ensures FindFrom(Site + w, IdMarker, 0) == 8
  {
    var id := Site + w;
    assert id[8..21] == IdMarker;
    forall m | 0 <= m < 8 ensures !OccursAt(id, IdMarker, m) {
      assert id[m] == Site[m];
    }
    FindAt(id, IdMarker, 8);
  }

  lemma SiteStripped(w: string)
    requires w == [] || !IsSpace(w[|w| - 1])
    ensures Strip(Site + w) == Site + w
  {
    var id := Site + w;
    assert id[0] == 'h';
    assert id[|id| - 1] == if w == [] then '/' else w[|w| - 1];
  }

  lemma SiteNotDoi(w: string)
    ensures !IsDoi(Site + w) && StartsWith(Site + w, "http")
  {
    assert Lower(Site + w)[..20] == "https://openalex.org";
    assert (Site + w)[..4] == "http";
  }

  lemma SiteSplit(w: string)
    requires FindFrom(w, IdMarker, 0) == -1
    ensures SplitOn(Site + w, IdMarker) == ["https://", w]
  {
    var id := Site + w;
    FindIdMarker(w);
    assert id[..8] == "https://";
    assert id[21..] == w;
  }

  /** An OpenAlex work URL is cut to its work id, under either prefix test. */
  lemma SitePath(w: string)
    requires FindFrom(w, IdMarker, 0) == -1
    ensures AfterMarker(Site + w, "http") == w
    ensures AfterMarker(Site + w, "https://") == w
  {
    SiteNotDoi(w);
    SiteSplit(w);
    assert (Site + w)[..8] == "https://";
  }

  lemma SiteRequestPath(w: string)
    requires FindFrom(w, IdMarker, 0) == -1
    ensures RequestPath(Site + w) == w
  {
    SiteNotDoi(w);
    SitePath(w);
  }

  /** An OpenAlex URL is looked up by the id that follows the site. */
  lemma ResolveUrlOpenAlexUrl(w: string)
    requires FindFrom(w, IdMarker, 0) == -1
    requires w == [] || !IsSpace(w[|w| - 1])
    ensures ResolveUrl(Site + w) == Some(Base + "/works/" + w)
  {
    SiteStripped(w);
    SiteRequestPath(w);
  }

  /** `resolve_work`: None for an empty identifier (without a request), the
      parsed work on status 200, and None on any other status or exception. */
  function ResolveWork(identifier: string, get: string -> HttpResult<Work>): (w: Option<Work>)
    ensures identifier == "" ==> w == None
    ensures w.Some? <==>
              identifier != "" && get(ResolveUrl(identifier).value).Reply? &&
              get(ResolveUrl(identifier).value).status == 200 && get(ResolveUrl(identifier).value).json.Some?
    ensures w.Some? ==> w == get(ResolveUrl(identifier).value).json
  {
    match ResolveUrl(identifier)
    case None => None
    case Some(url) =>
      match get(url)
      case Raised => None
      case Reply(status, json) => if status == 200 then json else None
  }

  /** The citing-works request: the works URL, its `filter` and `per_page`. */
  datatype CitingQuery = CitingQuery(url: string, filter: string, perPage: int)

  /** The request `get_citing_works` sends for a non-empty id. */
  function CitingRequest(openalexId: string, perPage: int): (q: CitingQuery)
    ensures q.url == Base + "/works" && q.perPage == perPage
    ensures q.filter == "referenced_works:" + AfterMarker(openalexId, "https://")
  {
    CitingQuery(Base + "/works", "referenced_works:" + AfterMarker(openalexId, "https://"), perPage)
  }

  /** `get_citing_works`: [] for a missing or empty id without a request, the
      `results` of a 200 answer, and [] on any other status or exception.
      `search` answers with the `results` list ([] when the key is absent). */
  function CitingWorks(openalexId: Option<string>, perPage: int,
                       search: CitingQuery -> HttpResult<seq<Work>>): (works: seq<Work>)
    ensures !Truthy(openalexId) ==> works == []
    ensures Truthy(openalexId) && search(CitingRequest(openalexId.value, perPage)).Reply?
            && search(CitingRequest(openalexId.value, perPage)).status == 200
            && search(CitingRequest(openalexId.value, perPage)).json.Some? ==>
              works == search(CitingRequest(openalexId.value, perPage)).json.value
    ensures works != [] ==> Truthy(openalexId) && search(CitingRequest(openalexId.value, perPage)) == Reply(200, Some(works))
  {
    if !Truthy(openalexId) then []
    else
      match search(CitingRequest(openalexId.value, perPage))
      case Raised => []
      case Reply(status, json) => if status == 200 && json.Some? then json.value else []
  }

  /** The URL of one referenced work. */
  function WorkUrl(rid: string): string
  {
    Base + "/works/" + rid
  }

  /** The works gathered by fetching `rids` in order: a 200 answer adds its
      work, another status skips the id, and an exception (including a body
      that fails to parse) ends the fetch with what was gathered. */
  function Fetched(rids: seq<string>, get: string -> HttpResult<Work>): (works: seq<Work>)
    ensures |works| <= |rids|
  {
    if rids == [] then []
    else
      match get(WorkUrl(rids[0]))
      case Raised => []
      case Reply(status, json) =>
        if status != 200 then Fetched(rids[1..], get)
        else if json.None? then []
        else [json.value] + Fetched(rids[1..], get)
  }

  /** The ids `get_referenced_works` fetches: the resolved work's
      `referenced_works` cut to `per_page`. */
  function ReferencedIds(openalexId: string, perPage: int, get: string -> HttpResult<Work>): (rids: seq<string>)
    ensures ResolveWork(openalexId, get).None? ==> rids == []
    ensures ResolveWork(openalexId, get).Some? ==>
              rids == Take(ResolveWork(openalexId, get).value.referencedWorks, perPage)
  {
    match ResolveWork(openalexId, get)
    case None => []
    case Some(w) => Take(w.referencedWorks, perPage)
  }

  /** The fetch loop of `get_referenced_works`. */
  method FetchWorks(refs: seq<string>, get: string -> HttpResult<Work>) returns (results: seq<Work>)
    ensures results == Fetched(refs, get)
  {
    results := [];
    for i := 0 to |refs|
      invariant Fetched(refs, get) == results + Fetched(refs[i..], get)
    {
      assert refs[i..][1..] == refs[i + 1..];
      var r := get(WorkUrl(refs[i]));
      if r.Raised? || (r.status == 200 && r.json.None?) {
        return;
      }
      if r.status == 200 {
        results := results + [r.json.value];
      }
    }
  }

  /** `get_referenced_works`: resolves the work, then fetches at most
      `per_page` of its referenced works in order. */
  method GetReferencedWorks(openalexId: string, perPage: int, get: string -> HttpResult<Work>)
    returns (results: seq<Work>)
    ensures results == Fetched(ReferencedIds(openalexId, perPage, get), get)
  {
    var w := ResolveWork(openalexId, get);
    if w.None? {
      return [];
    }
    var refs := Take(w.value.referencedWorks, perPage);
    results := FetchWorks(refs, get);
  }

  /** At most `per_page` referenced works are returned, and never more than
      the work references. */
  lemma ReferencedWorksBounded(openalexId: string, perPage: int, get: string -> HttpResult<Work>)
    ensures var n := |Fetched(ReferencedIds(openalexId, perPage, get), get)|;
            && (perPage >= 0 ==> n <= perPage)
            && (ResolveWork(openalexId, get).Some? ==> n <= |ResolveWork(openalexId, get).value.referencedWorks|)
            && (ResolveWork(openalexId, get).None? ==> n == 0)
  {
  }

  /** When every fetch answers 200 with a work, the result is exactly those
      works, one per id and in the order of the ids. */
  lemma {:induction false} FetchedAllOk(rids: seq<string>, get: string -> HttpResult<Work>)
    requires forall k :: 0 <= k < |rids| ==>
               get(WorkUrl(rids[k])).Reply? && get(WorkUrl(rids[k])).status == 200 && get(WorkUrl(rids[k])).json.Some?
    ensures |Fetched(rids, get)| == |rids|
    ensures forall k :: 0 <= k < |rids| ==> Fetched(rids, get)[k] == get(WorkUrl(rids[k])).json.value
  {
    if rids != [] {
      FetchedAllOk(rids[1..], get);
    }
  }

  /** Every work returned was the answer to the fetch of one of the ids. */
  lemma {:induction false} FetchedFromIds(rids: seq<string>, get: string -> HttpResult<Work>)
    ensures forall w :: w in Fetched(rids, get) ==>
              exists k :: 0 <= k < |rids| && get(WorkUrl(rids[k])) == Reply(200, Some(w))
  {
    if rids != [] {
      FetchedFromIds(rids[1..], get);
      forall w | w in Fetched(rids, get)
        ensures exists k :: 0 <= k < |rids| && get(WorkUrl(rids[k])) == Reply(200, Some(w))
      {
        if get(WorkUrl(rids[0])) != Reply(200, Some(w)) {
          var k :| 0 <= k < |rids[1..]| && get(WorkUrl(rids[1..][k])) == Reply(200, Some(w));
          assert rids[1..][k] == rids[k + 1];
        }
      }
    }
  }
}
