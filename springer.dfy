/**
 * Springer Nature metadata ingestion: the paging loop over the metadata API
 * and the defensive mapping of a record to the index's paper schema.
 *
 * The HTTP client is an oracle `fetch` from the request parameters to the
 * decoded reply (or a failure); the environment variable is a parameter.
 * Records are typed by the shapes the mapping distinguishes.
 */
module Springer {
  import opened Py
  import Seqs

  const ApiUrl := "https://api.springernature.com/metadata/json"

  /** The API's largest page. */
  const PageCap := 100

  // ---------------------------------------------------------------------------
  // Records

  /** An entry of a creators list: a dict, or any other value as `str()` shows it. */
  datatype Creator = CreatorDict(creator: Option<string>, name: Option<string>, fullName: Option<string>,
                                 given: Option<string>, family: Option<string>)
                   | CreatorValue(text: string)

  /** The value of a creators key: a list, a comma-separated string, or some
      other non-empty value (which yields no authors). */
  datatype Creators = CreatorList(items: seq<Creator>) | CreatorText(text: string) | CreatorOther

  /** A date value: a string, or some other non-empty value. */
  datatype DateValue = DateText(text: string) | DateOther

  datatype UrlItem = UrlDict(value: Option<string>, url: Option<string>) | UrlScalar(text: string)

  /** The value under `url`: a list, a string, or something else. */
  datatype UrlValue = UrlList(items: seq<UrlItem>) | UrlText(text: string) | UrlOther

  /** One record of a page; an absent key is None. `publicationDateSnake` is
      the key `publication_date`, `id` the record's own id as `str()` shows it. */
  datatype Record = Record(title: Option<string>, titles: Option<seq<string>>,
                           creators: Option<Creators>, creator: Option<Creators>, authors: Option<Creators>,
                           publicationDate: Option<DateValue>, onlineDate: Option<DateValue>,
                           publicationDateSnake: Option<DateValue>, date: Option<DateValue>,
                           url: Option<UrlValue>, doi: Option<string>, identifier: Option<string>,
                           ids: Option<string>, isbn: Option<string>, printIdentifier: Option<string>,
                           id: Option<string>, abstractText: Option<string>, description: Option<string>,
                           keywords: Option<seq<string>>)

  /** A paper in the index's schema. */
  datatype Paper = Paper(id: string, title: string, abstractText: string, authors: seq<string>,
                         published: Option<string>, url: Option<string>, doi: Option<string>,
                         keywords: seq<string>)

  // ---------------------------------------------------------------------------
  // Field mapping

  predicate CreatorsTruthy(c: Option<Creators>)
  {
    match c
    case None => false
    case Some(CreatorList(items)) => items != []
    case Some(CreatorText(text)) => text != ""
    case Some(CreatorOther) => true
  }

  /** `creators or creator or creators or authors`, None when all are falsy. */
  function AuthorsRaw(rec: Record): (raw: Option<Creators>)
    ensures raw.None? || CreatorsTruthy(raw)
  {
    if CreatorsTruthy(rec.creators) then rec.creators
    else if CreatorsTruthy(rec.creator) then rec.creator
    else if CreatorsTruthy(rec.authors) then rec.authors
    else None
  }

  /** The name of a creator entry: `creator`, `name` or `fullName`, else
      "given family" when both are set; None (dropped) otherwise. */
  function CreatorName(a: Creator): (name: Option<string>)
    ensures name.None? || name.value != ""
  {
    match a
    case CreatorDict(creator, name, fullName, given, family) =>
      if Truthy(creator) then creator
      else if Truthy(name) then name
      else if Truthy(fullName) then fullName
      else if Truthy(given) && Truthy(family) then Some(given.value + " " + family.value)
      else None
    case CreatorValue(text) => if text != "" then Some(text) else None
  }

  /** The names of a creators list, in order, nameless entries dropped. */
  function ListAuthors(items: seq<Creator>): (names: seq<string>)
    ensures |names| <= |items|
    ensures forall k :: 0 <= k < |names| ==> names[k] != ""
  {
    if items == [] then []
    else
      var init := ListAuthors(items[..|items| - 1]);
      match CreatorName(items[|items| - 1])
      case None => init
      case Some(n) => init + [n]
  }

  /** The loop over a creators list. */
  method ParseAuthorList(items: seq<Creator>) returns (names: seq<string>)
    ensures names == ListAuthors(items)
  {
    names := [];
    for i := 0 to |items|
      invariant names == ListAuthors(items[..i])
    {
      assert items[..i + 1][..i] == items[..i];
      var name := CreatorName(items[i]);
      if name.Some? {
        names := names + [name.value];
      }
    }
    assert items[..|items|] == items;
  }

  /** The author names of a record. */
  function Authors(rec: Record): (names: seq<string>)
    ensures forall k :: 0 <= k < |names| ==> names[k] != ""
  {
    match AuthorsRaw(rec)
    case None => []
    case Some(CreatorList(items)) => ListAuthors(items)
    case Some(CreatorText(text)) => CommaList(text)
    case Some(CreatorOther) => []
  }

  function DateTruthy(d: Option<DateValue>): bool
  {
    match d
    case None => false
    case Some(DateText(text)) => text != ""
    case Some(DateOther) => true
  }

  /** The first set date among publicationDate, onlineDate, publication_date
      and date, kept only when it is a string. */
  function Published(rec: Record): (pub: Option<string>)
    ensures pub.Some? ==> pub.value != ""
    ensures DateTruthy(rec.publicationDate) && rec.publicationDate.value.DateText? ==>
              pub == Some(rec.publicationDate.value.text)
    ensures (!DateTruthy(rec.publicationDate) && !DateTruthy(rec.onlineDate) &&
             !DateTruthy(rec.publicationDateSnake) && !DateTruthy(rec.date)) ==> pub == None
  {
    var pub := if DateTruthy(rec.publicationDate) then rec.publicationDate
               else if DateTruthy(rec.onlineDate) then rec.onlineDate
               else if DateTruthy(rec.publicationDateSnake) then rec.publicationDateSnake
               else if DateTruthy(rec.date) then rec.date
               else None;
    match pub
    case Some(DateText(text)) => Some(text)
    case _ => None
  }

  /** The url: from the first element of a list (its `value`, else its
      `url`, or the element itself), or the string; None otherwise. */
  function Url(rec: Record): (url: Option<string>)
    ensures rec.url.None? ==> url == None
    ensures rec.url.Some? && rec.url.value.UrlText? ==> url == Some(rec.url.value.text)
    ensures rec.url.Some? && rec.url.value.UrlList? && rec.url.value.items == [] ==> url == None
    ensures rec.url.Some? && rec.url.value.UrlOther? ==> url == None
  {
    match rec.url
    case None => None
    case Some(UrlList(items)) =>
      if items == [] then None
      else
        (match items[0]
         case UrlDict(value, url) => Or(value, url)
         case UrlScalar(text) => Some(text))
    case Some(UrlText(text)) => Some(text)
    case Some(UrlOther) => None
  }

  /** `doi or identifier or ids` */
  function Doi(rec: Record): Option<string>
  {
    Or(Or(rec.doi, rec.identifier), rec.ids)
  }

  /** The id of a record without doi, isbn or print identifier:
      "springer-", the record's id (else the page start), "-", the count of
      papers taken before it. */
  function FallbackId(recId: Option<string>, start: int, fetched: nat): (id: string)
    ensures StartsWith(id, "springer-")
    ensures EndsWith(id, "-" + NatToString(fetched))
  {
    var mid := "springer-" + (if recId.Some? then recId.value else IntToString(start));
    var id := mid + ("-" + NatToString(fetched));
    assert id[..|"springer-"|] == "springer-";
    assert id[|id| - |"-" + NatToString(fetched)|..] == "-" + NatToString(fetched);
    id
  }

  /** The paper id: the doi, else isbn, else the print identifier, else the
      fallback. */
  function PaperId(rec: Record, start: int, fetched: nat): (id: string)
    ensures Truthy(Doi(rec)) ==> id == Doi(rec).value
    ensures !Truthy(Doi(rec)) && Truthy(rec.isbn) ==> id == rec.isbn.value
    ensures !Truthy(Doi(rec)) && !Truthy(rec.isbn) && Truthy(rec.printIdentifier) ==> id == rec.printIdentifier.value
    ensures !Truthy(Doi(rec)) && !Truthy(rec.isbn) && !Truthy(rec.printIdentifier) ==>
              id == FallbackId(rec.id, start, fetched)
  {
    var chosen := Or(Or(Doi(rec), rec.isbn), rec.printIdentifier);
    if Truthy(chosen) then chosen.value else FallbackId(rec.id, start, fetched)
  }

  function Title(rec: Record): string
  {
    if Truthy(rec.title) then rec.title.value
    else if rec.titles.Some? && rec.titles.value != [] && rec.titles.value[0] != "" then rec.titles.value[0]
    else ""
  }

  /** The paper a record maps to, `start` being its page's start and
      `fetched` the number of papers taken before it. */
  function MapRecord(rec: Record, start: int, fetched: nat): Paper
  {
    var summary := Or(rec.abstractText, rec.description);
    Paper(PaperId(rec, start, fetched), Title(rec), if Truthy(summary) then summary.value else "",
          Authors(rec), Published(rec), Url(rec), Doi(rec),
          if rec.keywords.Some? && rec.keywords.value != [] then rec.keywords.value else [])
  }

  /** The mapping of one record, running the creators loop. */
  method ToPaper(rec: Record, start: int, fetched: nat) returns (paper: Paper)
    ensures paper == MapRecord(rec, start, fetched)
  {
    var raw := AuthorsRaw(rec);
    var authors: seq<string> := [];
    if raw.Some? && raw.value.CreatorList? {
      authors := ParseAuthorList(raw.value.items);
    } else if raw.Some? && raw.value.CreatorText? {
      authors := CommaList(raw.value.text);
    }
    var summary := Or(rec.abstractText, rec.description);
    paper := Paper(PaperId(rec, start, fetched), Title(rec), if Truthy(summary) then summary.value else "",
                   authors, Published(rec), Url(rec), Doi(rec),
                   if rec.keywords.Some? && rec.keywords.value != [] then rec.keywords.value else []);
  }

  // ---------------------------------------------------------------------------
  // Paging

  /** The query parameters of one request: query, key, page size `p` and
      1-based start `s`. */
  datatype Params = Params(q: string, apiKey: string, p: int, s: int)

  /** A reply: the request failed (transport or HTTP status), or the decoded
      body with its `records` and its `result.records`. */
  datatype Reply = Failed | Body(records: Option<seq<Record>>, resultRecords: Option<seq<Record>>)

  /** `records or result.records or []` */
  function RecordsOf(body: Reply): seq<Record>
    requires body.Body?
  {
    if body.records.Some? && body.records.value != [] then body.records.value
    else if body.resultRecords.Some? && body.resultRecords.value != [] then body.resultRecords.value
    else []
  }

  /** The records of a page tagged with the page's start. */
  function Batch(page: seq<Record>, start: int): (batch: seq<(Record, int)>)
    ensures |batch| == |page| && forall k :: 0 <= k < |page| ==> batch[k] == (page[k], start)
  {
    seq(|page|, k requires 0 <= k < |page| => (page[k], start))
  }

  /** The papers of a page's records, numbered from `fetched` on. */
  function MapPage(page: seq<Record>, start: int, fetched: nat): (papers: seq<Paper>)
    ensures |papers| == |page| && forall k :: 0 <= k < |page| ==> papers[k] == MapRecord(page[k], start, fetched + k)
  {
    seq(|page|, k requires 0 <= k < |page| => MapRecord(page[k], start, fetched + k))
  }

  /** The records taken from the request at `start` on, each with the start
      of its page, after `fetched` papers were taken: a page contributes
      records until `maxResults` is reached; a failure or an empty page
      stops, and so does a page shorter than the page size. */
  function Crawl(query: string, key: string, ps: int, maxResults: int, fetch: Params -> Reply,
                 start: int, fetched: nat): (taken: seq<(Record, int)>)
    ensures fetched + |taken| <= Max(fetched, maxResults)
    decreases maxResults - fetched
  {
    if fetched >= maxResults then []
    else
      var reply := fetch(Params(query, key, ps, start));
      if reply.Failed? || RecordsOf(reply) == [] then []
      else
        var records := RecordsOf(reply);
        var batch := Batch(Take(records, maxResults - fetched), start);
        batch + (if |records| < ps then []
                 else Crawl(query, key, ps, maxResults, fetch, start + ps, fetched + |batch|))
  }

  /** The requests the loop sends from `start` on, after `fetched` papers. */
  function Requests(query: string, key: string, ps: int, maxResults: int, fetch: Params -> Reply,
                    start: int, fetched: nat): (sent: seq<Params>)
    decreases maxResults - fetched
  {
    if fetched >= maxResults then []
    else
      var params := Params(query, key, ps, start);
      var reply := fetch(params);
      if reply.Failed? || RecordsOf(reply) == [] then [params]
      else
        var records := RecordsOf(reply);
        var n := |Take(records, maxResults - fetched)|;
        [params] + (if |records| < ps then []
                    else Requests(query, key, ps, maxResults, fetch, start + ps, fetched + n))
  }

  /** The papers of the taken records, the i-th numbered i. */
  function PapersOf(taken: seq<(Record, int)>): (papers: seq<Paper>)
    ensures |papers| == |taken|
  {
    seq(|taken|, i requires 0 <= i < |taken| => MapRecord(taken[i].0, taken[i].1, i))
  }

  lemma MapPageSnoc(page: seq<Record>, rec: Record, start: int, fetched: nat)
    ensures MapPage(page + [rec], start, fetched) == MapPage(page, start, fetched) + [MapRecord(rec, start, fetched + |page|)]
  {
  }

  lemma PapersOfAppend(taken: seq<(Record, int)>, page: seq<Record>, start: int)
    ensures PapersOf(taken + Batch(page, start)) == PapersOf(taken) + MapPage(page, start, |taken|)
  {
  }

  /** The outcome of `fetch_springer_papers`. */
  datatype Ingest = MissingKey | Fetched(papers: seq<Paper>)

  /** The loop's progress: what was taken so far and the requests sent, and
      the rest of the crawl still to come from `start`. */
  ghost predicate CrawlState(query: string, key: string, ps: int, maxResults: int, fetch: Params -> Reply,
                             start: int, fetched: nat, taken: seq<(Record, int)>, sent: seq<Params>,
                             papers: seq<Paper>)
  {
    && |taken| == fetched
    && papers == PapersOf(taken)
    && Crawl(query, key, ps, maxResults, fetch, 1, 0) == taken + Crawl(query, key, ps, maxResults, fetch, start, fetched)
    && Requests(query, key, ps, maxResults, fetch, 1, 0) == sent + Requests(query, key, ps, maxResults, fetch, start, fetched)
  }

  /** The crawl as seen from the start, once the loop is over. */
  ghost predicate Done(query: string, key: string, ps: int, maxResults: int, fetch: Params -> Reply,
                       sent: seq<Params>, papers: seq<Paper>)
  {
    papers == PapersOf(Crawl(query, key, ps, maxResults, fetch, 1, 0)) &&
    sent == Requests(query, key, ps, maxResults, fetch, 1, 0)
  }

  /** The loop over one page's records: each is mapped and appended until
      `maxResults` papers were taken. */
  method TakePage(records: seq<Record>, start: int, maxResults: int, papers: seq<Paper>, fetched: nat)
    returns (papers': seq<Paper>, fetched': nat)
    requires |papers| == fetched && fetched < maxResults
    ensures fetched' == fetched + |Take(records, maxResults - fetched)|
    ensures papers' == papers + MapPage(Take(records, maxResults - fetched), start, fetched)
  {
    papers', fetched' := papers, fetched;
    for i := 0 to |records|
      invariant fetched' == fetched + i && fetched' <= maxResults
      invariant papers' == papers + MapPage(records[..i], start, fetched)
    {
      if fetched' >= maxResults {
        break;
      }
      var paper := ToPaper(records[i], start, fetched');
      TakeStep(papers, records, i, start, fetched, paper);
      papers' := papers' + [paper];
      fetched' := fetched' + 1;
    }
    TakePrefix(records, maxResults - fetched);
  }

  lemma TakeStep(papers: seq<Paper>, records: seq<Record>, i: nat, start: int, fetched: nat, paper: Paper)
    requires i < |records| && paper == MapRecord(records[i], start, fetched + i)
    ensures papers + MapPage(records[..i + 1], start, fetched) == papers + MapPage(records[..i], start, fetched) + [paper]
  {
    assert records[..i + 1] == records[..i] + [records[i]];
    MapPageSnoc(records[..i], records[i], start, fetched);
  }

  /** The paging loop of `fetch_springer_papers`, once the key is known. */
  method Crawler(query: string, key: string, ps: int, maxResults: int, fetch: Params -> Reply)
    returns (papers: seq<Paper>, ghost sent: seq<Params>)
    ensures Done(query, key, ps, maxResults, fetch, sent, papers)
  {
    sent := [];
    papers := [];
    var fetched: nat := 0;
    var start := 1;
    ghost var taken: seq<(Record, int)> := [];
    while fetched < maxResults
      invariant CrawlState(query, key, ps, maxResults, fetch, start, fetched, taken, sent, papers)
      decreases maxResults - fetched
    {
      var stop: bool;
      stop, start, fetched, taken, sent, papers := CrawlStep(query, key, ps, maxResults, fetch, start, fetched, taken, sent, papers);
      if stop {
        return;
      }
    }
    EndCrawl(query, key, ps, maxResults, fetch, start, fetched, taken, sent, papers);
  }

  /** One pass of the paging loop: request the page at `start`, map its
      records, and stop on a failed, empty or short page. */
  method CrawlStep(query: string, key: string, ps: int, maxResults: int, fetch: Params -> Reply,
                   start: int, fetched: nat, ghost taken: seq<(Record, int)>, ghost sent: seq<Params>,
                   papers: seq<Paper>)
    returns (stop: bool, start': int, fetched': nat, ghost taken': seq<(Record, int)>, ghost sent': seq<Params>,
             papers': seq<Paper>)
    requires CrawlState(query, key, ps, maxResults, fetch, start, fetched, taken, sent, papers)
    requires fetched < maxResults
    ensures stop ==> Done(query, key, ps, maxResults, fetch, sent', papers')
    ensures !stop ==> fetched < fetched' &&
                      CrawlState(query, key, ps, maxResults, fetch, start', fetched', taken', sent', papers')
  {
    var params := Params(query, key, ps, start);
    var reply := fetch(params);
    sent' := sent + [params];
    start', fetched', taken', papers' := start, fetched, taken, papers;
    stop := true;
    if reply.Failed? {
      FinishCrawl(query, key, ps, maxResults, fetch, start, fetched, taken, sent, papers);
      return;
    }
    var records := RecordsOf(reply);
    if records == [] {
      FinishCrawl(query, key, ps, maxResults, fetch, start, fetched, taken, sent, papers);
      return;
    }
    stop, start', fetched', taken', sent', papers' :=
      PageStep(query, key, ps, maxResults, fetch, start, fetched, taken, sent, papers, params, records);
  }

  /** The rest of a pass once the reply is a non-empty page: its records are
      taken, and the crawl goes on only after a full page. */
  method PageStep(query: string, key: string, ps: int, maxResults: int, fetch: Params -> Reply,
                  start: int, fetched: nat, ghost taken: seq<(Record, int)>, ghost sent: seq<Params>,
                  papers: seq<Paper>, params: Params, records: seq<Record>)
    returns (stop: bool, start': int, fetched': nat, ghost taken': seq<(Record, int)>, ghost sent': seq<Params>,
             papers': seq<Paper>)
    requires CrawlState(query, key, ps, maxResults, fetch, start, fetched, taken, sent, papers)
    requires fetched < maxResults
    requires params == Params(query, key, ps, start) && fetch(params).Body?
    requires records == RecordsOf(fetch(params)) && records != []
    ensures stop ==> Done(query, key, ps, maxResults, fetch, sent', papers')
    ensures !stop ==> fetched < fetched' &&
                      CrawlState(query, key, ps, maxResults, fetch, start', fetched', taken', sent', papers')
  {
    ghost var page := Take(records, maxResults - fetched);
    papers', fetched' := TakePage(records, start, maxResults, papers, fetched);
    taken' := taken + Batch(page, start);
    sent' := sent + [params];
    if |records| < ps {
      stop, start' := true, start;
      ShortPage(query, key, ps, maxResults, fetch, start, fetched, taken, sent, papers, params, records, page,
                sent', papers');
    } else {
      stop, start' := false, start + ps;
      NextPage(query, key, ps, maxResults, fetch, start, fetched, taken, sent, papers, params, records, page,
               start', fetched', taken', sent', papers');
    }
  }

  /** `fetch_springer_papers`: no key (argument or environment) raises before
      any request; otherwise pages of size min(page_size, 100) are requested
      from start 1 on, and their records mapped, until `maxResults` papers
      were taken or a page fails, comes back empty or comes back short. */
  method FetchSpringerPapers(query: string, maxResults: int, pageSize: int, apiKey: Option<string>,
                             env: Option<string>, fetch: Params -> Reply)
    returns (r: Ingest, ghost sent: seq<Params>)
    ensures !Truthy(Or(apiKey, env)) ==> r == MissingKey && sent == []
    ensures Truthy(Or(apiKey, env)) ==>
              var key := Or(apiKey, env).value;
              var ps := Min(pageSize, PageCap);
              && r == Fetched(PapersOf(Crawl(query, key, ps, maxResults, fetch, 1, 0)))
              && sent == Requests(query, key, ps, maxResults, fetch, 1, 0)
  {
    var keyOr := Or(apiKey, env);
    if !Truthy(keyOr) {
      return MissingKey, [];
    }
    var papers;
    papers, sent := Crawler(query, keyOr.value, Min(pageSize, PageCap), maxResults, fetch);
    r := Fetched(papers);
  }

  /** Reaching `maxResults` ends the crawl. */
  lemma EndCrawl(query: string, key: string, ps: int, maxResults: int, fetch: Params -> Reply,
                 start: int, fetched: nat, taken: seq<(Record, int)>, sent: seq<Params>, papers: seq<Paper>)
    requires Done(query, key, ps, maxResults, fetch, sent, papers) ||
             (CrawlState(query, key, ps, maxResults, fetch, start, fetched, taken, sent, papers) && fetched >= maxResults)
    ensures Done(query, key, ps, maxResults, fetch, sent, papers)
  {
  }

  /** A failed or empty reply ends the crawl. */
  lemma FinishCrawl(query: string, key: string, ps: int, maxResults: int, fetch: Params -> Reply,
                    start: int, fetched: nat, taken: seq<(Record, int)>, sent: seq<Params>, papers: seq<Paper>)
    requires CrawlState(query, key, ps, maxResults, fetch, start, fetched, taken, sent, papers)
    requires fetched < maxResults
    requires var reply := fetch(Params(query, key, ps, start)); reply.Failed? || RecordsOf(reply) == []
    ensures Done(query, key, ps, maxResults, fetch, sent + [Params(query, key, ps, start)], papers)
  {
    assert taken + [] == taken;
  }

  /** The crawl from a start whose reply is a non-empty page: the page's
      records, then, after a full page, the crawl of the next page. */
  lemma CrawlUnfold(query: string, key: string, ps: int, maxResults: int, fetch: Params -> Reply,
                    start: int, fetched: nat)
    requires fetched < maxResults
    requires var reply := fetch(Params(query, key, ps, start)); reply.Body? && RecordsOf(reply) != []
    ensures var records := RecordsOf(fetch(Params(query, key, ps, start)));
            var page := Take(records, maxResults - fetched);
            && Crawl(query, key, ps, maxResults, fetch, start, fetched) ==
                 Batch(page, start) + (if |records| < ps then []
                                       else Crawl(query, key, ps, maxResults, fetch, start + ps, fetched + |page|))
            && Requests(query, key, ps, maxResults, fetch, start, fetched) ==
                 [Params(query, key, ps, start)] + (if |records| < ps then []
                                                    else Requests(query, key, ps, maxResults, fetch, start + ps, fetched + |page|))
  {
    CrawlNext(query, key, ps, maxResults, fetch, start, fetched);
    RequestsNext(query, key, ps, maxResults, fetch, start, fetched);
  }

  lemma CrawlNext(query: string, key: string, ps: int, maxResults: int, fetch: Params -> Reply,
                  start: int, fetched: nat)
    requires fetched < maxResults
    requires var reply := fetch(Params(query, key, ps, start)); reply.Body? && RecordsOf(reply) != []
    ensures var records := RecordsOf(fetch(Params(query, key, ps, start)));
            var page := Take(records, maxResults - fetched);
            Crawl(query, key, ps, maxResults, fetch, start, fetched) ==
              Batch(page, start) + (if |records| < ps then []
                                    else Crawl(query, key, ps, maxResults, fetch, start + ps, fetched + |page|))
  {
    var page := Take(RecordsOf(fetch(Params(query, key, ps, start))), maxResults - fetched);
    assert |Batch(page, start)| == |page|;
  }

  lemma RequestsNext(query: string, key: string, ps: int, maxResults: int, fetch: Params -> Reply,
                     start: int, fetched: nat)
    requires fetched < maxResults
    requires var reply := fetch(Params(query, key, ps, start)); reply.Body? && RecordsOf(reply) != []
    ensures var records := RecordsOf(fetch(Params(query, key, ps, start)));
            var page := Take(records, maxResults - fetched);
            Requests(query, key, ps, maxResults, fetch, start, fetched) ==
              [Params(query, key, ps, start)] + (if |records| < ps then []
                                                 else Requests(query, key, ps, maxResults, fetch, start + ps, fetched + |page|))
  {
  }

  /** A page shorter than the page size ends the crawl. */
  lemma ShortPage(query: string, key: string, ps: int, maxResults: int, fetch: Params -> Reply,
                  start: int, fetched: nat, taken: seq<(Record, int)>, sent: seq<Params>,
                  papers: seq<Paper>, params: Params, records: seq<Record>, page: seq<Record>,
                  sent': seq<Params>, papers': seq<Paper>)
    requires CrawlState(query, key, ps, maxResults, fetch, start, fetched, taken, sent, papers)
    requires fetched < maxResults
    requires params == Params(query, key, ps, start) && fetch(params).Body?
    requires records == RecordsOf(fetch(params)) && records != [] && |records| < ps
    requires page == Take(records, maxResults - fetched)
    requires sent' == sent + [params] && papers' == papers + MapPage(page, start, fetched)
    ensures Done(query, key, ps, maxResults, fetch, sent', papers')
  {
    CrawlUnfold(query, key, ps, maxResults, fetch, start, fetched);
    PapersOfAppend(taken, page, start);
    Seqs.AppendNil(Batch(page, start));
    Seqs.AppendNil([params]);
    Seqs.AppendAssoc(taken, Batch(page, start), []);
    Seqs.AppendAssoc(sent, [params], []);
  }

  /** A full page moves the state on to the next start. */
  lemma NextPage(query: string, key: string, ps: int, maxResults: int, fetch: Params -> Reply,
                 start: int, fetched: nat, taken: seq<(Record, int)>, sent: seq<Params>,
                 papers: seq<Paper>, params: Params, records: seq<Record>, page: seq<Record>,
                 start': int, fetched': nat, taken': seq<(Record, int)>, sent': seq<Params>, papers': seq<Paper>)
    requires CrawlState(query, key, ps, maxResults, fetch, start, fetched, taken, sent, papers)
    requires fetched < maxResults
    requires params == Params(query, key, ps, start) && fetch(params).Body?
    requires records == RecordsOf(fetch(params)) && records != [] && |records| >= ps
    requires page == Take(records, maxResults - fetched)
    requires start' == start + ps && fetched' == fetched + |page|
    requires taken' == taken + Batch(page, start) && sent' == sent + [params]
    requires papers' == papers + MapPage(page, start, fetched)
    ensures CrawlState(query, key, ps, maxResults, fetch, start', fetched', taken', sent', papers')
  {
    var rest := Crawl(query, key, ps, maxResults, fetch, start', fetched');
    var later := Requests(query, key, ps, maxResults, fetch, start', fetched');
    CrawlFull(query, key, ps, maxResults, fetch, start, fetched, params, records, page, start', fetched');
    RequestsFull(query, key, ps, maxResults, fetch, start, fetched, params, records, page, start', fetched');
    PapersOfAppend(taken, page, start);
    Seqs.AppendAssoc(taken, Batch(page, start), rest);
    Seqs.AppendAssoc(sent, [params], later);
    assert Crawl(query, key, ps, maxResults, fetch, 1, 0) == taken' + rest;
    assert Requests(query, key, ps, maxResults, fetch, 1, 0) == sent' + later;
  }

  /** From a start whose reply is a full page, the crawl is that page's
      records followed by the crawl of the next page. */
  lemma CrawlFull(query: string, key: string, ps: int, maxResults: int, fetch: Params -> Reply,
                  start: int, fetched: nat, params: Params, records: seq<Record>, page: seq<Record>,
                  start': int, fetched': nat)
    requires fetched < maxResults
    requires params == Params(query, key, ps, start) && fetch(params).Body?
    requires records == RecordsOf(fetch(params)) && records != [] && |records| >= ps
    requires page == Take(records, maxResults - fetched)
    requires start' == start + ps && fetched' == fetched + |page|
    ensures Crawl(query, key, ps, maxResults, fetch, start, fetched) ==
            Batch(page, start) + Crawl(query, key, ps, maxResults, fetch, start', fetched')
  {
    var batch := Batch(page, start);
    var reply := fetch(Params(query, key, ps, start));
    assert reply.Body? && RecordsOf(reply) == records;
    assert Crawl(query, key, ps, maxResults, fetch, start, fetched) ==
           batch + Crawl(query, key, ps, maxResults, fetch, start + ps, fetched + |batch|);
  }

  /** From a start whose reply is a full page, the requests are that page's
      request followed by those of the next page. */
  lemma RequestsFull(query: string, key: string, ps: int, maxResults: int, fetch: Params -> Reply,
                     start: int, fetched: nat, params: Params, records: seq<Record>, page: seq<Record>,
                     start': int, fetched': nat)
    requires fetched < maxResults
    requires params == Params(query, key, ps, start) && fetch(params).Body?
    requires records == RecordsOf(fetch(params)) && records != [] && |records| >= ps
    requires page == Take(records, maxResults - fetched)
    requires start' == start + ps && fetched' == fetched + |page|
    ensures Requests(query, key, ps, maxResults, fetch, start, fetched) ==
            [params] + Requests(query, key, ps, maxResults, fetch, start', fetched')
  {
  }

  // ---------------------------------------------------------------------------
  // Properties

  /** At most `maxResults` papers are returned. */
  lemma FetchedBounded(query: string, key: string, pageSize: int, maxResults: int, fetch: Params -> Reply)
    ensures |PapersOf(Crawl(query, key, Min(pageSize, PageCap), maxResults, fetch, 1, 0))| <= Max(0, maxResults)
  {
  }

  /** `start + k * ps`, the start of the k-th page after `start`. */
  function PageStart(start: int, k: nat, ps: int): int
  {
    start + k * ps
  }

  lemma PageStartNext(start: int, k: nat, ps: int)
    ensures PageStart(start + ps, k, ps) == PageStart(start, k + 1, ps)
  {
    assert (k + 1) * ps == k * ps + ps;
  }

  /** The k-th request asks for the page of size `ps` starting at
      `start + k * ps`, with the same query and key. */
  lemma {:induction false} RequestStarts(query: string, key: string, ps: int, maxResults: int, fetch: Params -> Reply,
                                         start: int, fetched: nat)
    ensures var sent := Requests(query, key, ps, maxResults, fetch, start, fetched);
            forall k :: 0 <= k < |sent| ==> sent[k] == Params(query, key, ps, PageStart(start, k, ps))
    decreases maxResults - fetched
  {
    var sent := Requests(query, key, ps, maxResults, fetch, start, fetched);
    if fetched < maxResults {
      var reply := fetch(Params(query, key, ps, start));
      assert PageStart(start, 0, ps) == start;
      if reply.Body? && RecordsOf(reply) != [] && |RecordsOf(reply)| >= ps {
        var n := |Take(RecordsOf(reply), maxResults - fetched)|;
        var rest := Requests(query, key, ps, maxResults, fetch, start + ps, fetched + n);
        RequestStarts(query, key, ps, maxResults, fetch, start + ps, fetched + n);
        assert sent == [Params(query, key, ps, start)] + rest;
        forall k | 1 <= k < |sent| ensures sent[k] == Params(query, key, ps, PageStart(start, k, ps)) {
          PageStartNext(start, k - 1, ps);
          assert sent[k] == rest[k - 1];
        }
      }
    }
  }

  /** A reply that lets the loop go on: a body with at least `ps` records. */
  predicate FullPage(reply: Reply, ps: int)
  {
    reply.Body? && RecordsOf(reply) != [] && |RecordsOf(reply)| >= ps
  }

  predicate AllButLastFull(sent: seq<Params>, fetch: Params -> Reply, ps: int)
  {
    forall k :: 0 <= k < |sent| - 1 ==> FullPage(fetch(sent[k]), ps)
  }

  /** Every request but the last got a full page: the loop goes on only
      after a page of at least the page size. */
  lemma {:induction false} OnlyFullPagesContinue(query: string, key: string, ps: int, maxResults: int,
                                                 fetch: Params -> Reply, start: int, fetched: nat)
    ensures AllButLastFull(Requests(query, key, ps, maxResults, fetch, start, fetched), fetch, ps)
    decreases maxResults - fetched
  {
    var sent := Requests(query, key, ps, maxResults, fetch, start, fetched);
    if fetched < maxResults {
      var reply := fetch(Params(query, key, ps, start));
      if FullPage(reply, ps) {
        var n := |Take(RecordsOf(reply), maxResults - fetched)|;
        var rest := Requests(query, key, ps, maxResults, fetch, start + ps, fetched + n);
        OnlyFullPagesContinue(query, key, ps, maxResults, fetch, start + ps, fetched + n);
        assert sent == [Params(query, key, ps, start)] + rest;
        forall k | 1 <= k < |sent| - 1 ensures FullPage(fetch(sent[k]), ps) {
          assert sent[k] == rest[k - 1];
          assert FullPage(fetch(rest[k - 1]), ps);
        }
      }
    }
  }

  /** The page size never exceeds the API's cap. */
  lemma PageSizeCapped(query: string, key: string, pageSize: int, maxResults: int, fetch: Params -> Reply)
    ensures forall p :: p in Requests(query, key, Min(pageSize, PageCap), maxResults, fetch, 1, 0) ==> p.p <= PageCap
  {
    var ps := Min(pageSize, PageCap);
    var sent := Requests(query, key, ps, maxResults, fetch, 1, 0);
    RequestStarts(query, key, ps, maxResults, fetch, 1, 0);
    forall p | p in sent ensures p.p <= PageCap {
      var k :| 0 <= k < |sent| && sent[k] == p;
      assert sent[k] == Params(query, key, ps, PageStart(1, k, ps));
    }
  }

  /** `str(n)` is injective. */
  lemma {:induction false} NatToStringInjective(a: nat, b: nat)
    requires NatToString(a) == NatToString(b)
    ensures a == b
  {
    var sa := NatToString(a);
    if a < 10 {
      assert DigitChar(a) == sa[0] == DigitChar(b);
    } else {
      assert sa[..|sa| - 1] == NatToString(a / 10);
      assert NatToString(b)[..|sa| - 1] == NatToString(b / 10);
      NatToStringInjective(a / 10, b / 10);
      assert DigitChar(a % 10) == sa[|sa| - 1] == DigitChar(b % 10);
    }
  }

  /** The text after the last '-' (all of `s` when it has none). */
  function AfterLastDash(s: string): string
  {
    if s == [] || s[|s| - 1] == '-' then [] else AfterLastDash(s[..|s| - 1]) + [s[|s| - 1]]
  }

  lemma {:induction false} AfterLastDashOf(x: string, d: string)
    requires '-' !in d
    ensures AfterLastDash(x + ("-" + d)) == d
  {
    var s := x + ("-" + d);
    if d != [] {
      var d' := d[..|d| - 1];
      assert s[..|s| - 1] == x + ("-" + d');
      AfterLastDashOf(x, d');
    } else {
      assert s[|s| - 1] == '-';
    }
  }

  /** Two fallback ids with different counters differ, whatever the records'
      ids and starts: the text after the last '-' is the counter. */
  lemma FallbackIdsDistinct(x: Option<string>, s: int, i: nat, y: Option<string>, t: int, j: nat)
    requires i != j
    ensures FallbackId(x, s, i) != FallbackId(y, t, j)
  {
    var mx := "springer-" + (if x.Some? then x.value else IntToString(s));
    var my := "springer-" + (if y.Some? then y.value else IntToString(t));
    var di, dj := NatToString(i), NatToString(j);
    assert FallbackId(x, s, i) == mx + ("-" + di);
    assert FallbackId(y, t, j) == my + ("-" + dj);
    AfterLastDashOf(mx, di);
    AfterLastDashOf(my, dj);
    if di == dj {
      NatToStringInjective(i, j);
    }
  }

  /** Papers of one ingestion that fall back to generated ids never share one. */
  lemma FallbackIdsUnique(taken: seq<(Record, int)>, i: nat, j: nat)
    requires i < |taken| && j < |taken| && i != j
    requires var ri := taken[i].0; !Truthy(Doi(ri)) && !Truthy(ri.isbn) && !Truthy(ri.printIdentifier)
    requires var rj := taken[j].0; !Truthy(Doi(rj)) && !Truthy(rj.isbn) && !Truthy(rj.printIdentifier)
    ensures PapersOf(taken)[i].id != PapersOf(taken)[j].id
  {
    FallbackIdsDistinct(taken[i].0.id, taken[i].1, i, taken[j].0.id, taken[j].1, j);
  }
}
