/**
 * The search service: the Elasticsearch BM25 query built by `keyword_search`,
 * the placeholder `vector_search`, the weighted reciprocal-rank fusion of
 * `hybrid_search` and the truncating `rerank_results`.
 *
 * Elasticsearch is the parameter `es` (the `_source` of each hit, in rank
 * order). A search hit is of any type `P`; `idOf` reads its `id` field.
 */
module Search {
  import opened Py
  import opened Seqs

  // ---------------------------------------------------------------------------
  // The keyword query

  /** A filter value: a list becomes a `terms` clause, anything else a `term`. */
  datatype FilterValue = Scalar(value: Option<string>) | List(values: seq<string>)

  datatype Clause =
    | MultiMatch(query: string, fields: seq<string>, matchType: string, fuzziness: string)
    | Term(field: string, value: Option<string>)
    | Terms(field: string, values: seq<string>)

  /** `{"query": {"bool": {"must": must, "filter": filter}}, "size": size}`;
      `filter` is None when the key is absent. */
  datatype EsQuery = EsQuery(must: seq<Clause>, filter: Option<seq<Clause>>, size: int)

  /** The one full-text clause: title boosted 3, abstract 2, keywords 1. */
  function TextClause(query: string): Clause
  {
    MultiMatch(query, ["title^3", "abstract^2", "keywords"], "best_fields", "AUTO")
  }

  function FilterClause(field: string, value: FilterValue): (c: Clause)
    ensures value.List? ==> c == Terms(field, value.values)
    ensures value.Scalar? ==> c == Term(field, value.value)
  {
    match value
    case List(vs) => Terms(field, vs)
    case Scalar(v) => Term(field, v)
  }

  /** The query `keyword_search` sends: one text clause, the filter clause of the
      last filter entry when there is any, and the requested size. */
  function KeywordQueryOf(query: string, filters: Option<seq<(string, FilterValue)>>, size: int): EsQuery
  {
    var filter :=
      if filters.None? || filters.value == [] then None
      else
        var last := filters.value[|filters.value| - 1];
        Some([FilterClause(last.0, last.1)]);
    EsQuery([TextClause(query)], filter, size)
  }

  /** `keyword_search`'s query: the filter loop assigns the filter list afresh
      for every entry, so only the last entry of a non-empty filter dict is kept. */
  method KeywordQuery(query: string, filters: Option<seq<(string, FilterValue)>>, size: int)
    returns (q: EsQuery)
    ensures q.must == [TextClause(query)] && q.size == size
    ensures filters.None? || filters.value == [] ==> q.filter.None?
    ensures filters.Some? && filters.value != [] ==>
              var last := filters.value[|filters.value| - 1];
              q.filter == Some([FilterClause(last.0, last.1)])
    ensures q == KeywordQueryOf(query, filters, size)
  {
    q := EsQuery([TextClause(query)], None, size);
    if filters.Some? && filters.value != [] {
      var items := filters.value;
      for k := 0 to |items|
        invariant q.must == [TextClause(query)] && q.size == size
        invariant k == 0 ==> q.filter.None?
        invariant k > 0 ==> q.filter == Some([FilterClause(items[k - 1].0, items[k - 1].1)])
      {
        var (field, value) := items[k];
        if value.List? {
          q := q.(filter := Some([Terms(field, value.values)]));
        } else {
          q := q.(filter := Some([Term(field, value.value)]));
        }
      }
    }
  }

  /** `keyword_search`: the hits' sources for the query above. */
  method KeywordSearch<P>(query: string, filters: Option<seq<(string, FilterValue)>>, size: int,
                          es: EsQuery -> seq<P>) returns (hits: seq<P>)
    ensures hits == es(KeywordQueryOf(query, filters, size))
  {
    var q := KeywordQuery(query, filters, size);
    hits := es(q);
  }

  /** `vector_search`: the FAISS lookup is computed but no paper is fetched, so
      the result is always empty. */
  function VectorSearch<P>(query: string, size: int): (hits: seq<P>)
    ensures hits == []
  {
    []
  }

  // ---------------------------------------------------------------------------
  // Rank fusion

  /** `{"paper": ..., "score": ...}` */
  datatype Entry<P> = Entry(paper: P, score: real)

  /** The `combined_results` dict: its keys in insertion order and its entries. */
  datatype Fusion<P> = Fusion(keys: seq<string>, entries: map<string, Entry<P>>)

  /** The keys are distinct, they are exactly the entries' keys, and each entry's
      paper carries its key as id. */
  ghost predicate Valid<P>(f: Fusion<P>, idOf: P -> Option<string>)
  {
    && NoDuplicates(f.keys)
    && (forall k :: k in f.entries <==> k in f.keys)
    && (forall k :: k in f.entries ==> idOf(f.entries[k].paper) == Some(k))
  }

  /** `w * (1.0 / (i + 1))`, the contribution of rank `i`. */
  function RankWeight(w: real, i: nat): real
  {
    w * (1.0 / (i + 1) as real)
  }

  /** The dict after the keyword loop over `results`: each hit with a truthy id is
      stored under it with score (1 - alpha) / (rank + 1), replacing any earlier
      hit with the same id (which keeps its place in the key order). */
  function KeywordPass<P>(results: seq<P>, idOf: P -> Option<string>, alpha: real): Fusion<P>
  {
    if results == [] then Fusion([], map[])
    else
      var i := |results| - 1;
      var f := KeywordPass(results[..i], idOf, alpha);
      var id := idOf(results[i]);
      if !Truthy(id) then f
      else Fusion(if id.value in f.entries then f.keys else f.keys + [id.value],
                  f.entries[id.value := Entry(results[i], RankWeight(1.0 - alpha, i))])
  }

  /** The dict after the vector loop, starting from `f`: an id already present
      gains alpha / (rank + 1); a new id is stored with that score. */
  function VectorPass<P>(f: Fusion<P>, results: seq<P>, idOf: P -> Option<string>, alpha: real): Fusion<P>
  {
    if results == [] then f
    else
      var i := |results| - 1;
      var g := VectorPass(f, results[..i], idOf, alpha);
      var id := idOf(results[i]);
      if !Truthy(id) then g
      else if id.value in g.entries then
        var e := g.entries[id.value];
        Fusion(g.keys, g.entries[id.value := Entry(e.paper, e.score + RankWeight(alpha, i))])
      else Fusion(g.keys + [id.value], g.entries[id.value := Entry(results[i], RankWeight(alpha, i))])
  }

  function Fused<P>(keywordHits: seq<P>, vectorHits: seq<P>, idOf: P -> Option<string>, alpha: real): Fusion<P>
  {
    VectorPass(KeywordPass(keywordHits, idOf, alpha), vectorHits, idOf, alpha)
  }

  /** `combined_results.values()`, each paired with its key. */
  function Items<P>(f: Fusion<P>): (items: seq<(string, Entry<P>)>)
    requires forall k :: k in f.keys ==> k in f.entries
    ensures |items| == |f.keys|
    ensures forall k :: 0 <= k < |items| ==> items[k] == (f.keys[k], f.entries[f.keys[k]])
  {
    seq(|f.keys|, k requires 0 <= k < |f.keys| && f.keys[k] in f.entries => (f.keys[k], f.entries[f.keys[k]]))
  }

  function ItemScore<P>(item: (string, Entry<P>)): real
  {
    item.1.score
  }

  /** The fused ranking: the dict's items sorted by score (largest first,
      insertion order among equal scores), cut to `size`. */
  function Ranking<P>(keywordHits: seq<P>, vectorHits: seq<P>, idOf: P -> Option<string>,
                      size: int, alpha: real): seq<(string, Entry<P>)>
  {
    var f := Fused(keywordHits, vectorHits, idOf, alpha);
    FusedValid(keywordHits, vectorHits, idOf, alpha);
    Take(SortDescBy(Items(f), ItemScore), size)
  }

  function Papers<P>(ranking: seq<(string, Entry<P>)>): (papers: seq<P>)
    ensures |papers| == |ranking| && forall k :: 0 <= k < |ranking| ==> papers[k] == ranking[k].1.paper
  {
    seq(|ranking|, k requires 0 <= k < |ranking| => ranking[k].1.paper)
  }

  /** The keyword loop of `hybrid_search`. */
  method KeywordLoop<P>(keywordHits: seq<P>, idOf: P -> Option<string>, alpha: real)
    returns (keys: seq<string>, entries: map<string, Entry<P>>)
    ensures Fusion(keys, entries) == KeywordPass(keywordHits, idOf, alpha)
  {
    keys, entries := [], map[];
    for i := 0 to |keywordHits|
      invariant Fusion(keys, entries) == KeywordPass(keywordHits[..i], idOf, alpha)
    {
      assert keywordHits[..i + 1][..i] == keywordHits[..i];
      var id := idOf(keywordHits[i]);
      if Truthy(id) {
        if id.value !in entries {
          keys := keys + [id.value];
        }
        entries := entries[id.value := Entry(keywordHits[i], RankWeight(1.0 - alpha, i))];
      }
    }
    assert keywordHits[..|keywordHits|] == keywordHits;
  }

  /** The vector loop of `hybrid_search`, continuing the keyword loop's dict. */
  method VectorLoop<P>(keys0: seq<string>, entries0: map<string, Entry<P>>, vectorHits: seq<P>,
                       idOf: P -> Option<string>, alpha: real)
    returns (keys: seq<string>, entries: map<string, Entry<P>>)
    ensures Fusion(keys, entries) == VectorPass(Fusion(keys0, entries0), vectorHits, idOf, alpha)
  {
    keys, entries := keys0, entries0;
    for i := 0 to |vectorHits|
      invariant Fusion(keys, entries) == VectorPass(Fusion(keys0, entries0), vectorHits[..i], idOf, alpha)
    {
      assert vectorHits[..i + 1][..i] == vectorHits[..i];
      var id := idOf(vectorHits[i]);
      if Truthy(id) {
        if id.value in entries {
          var e := entries[id.value];
          entries := entries[id.value := Entry(e.paper, e.score + RankWeight(alpha, i))];
        } else {
          keys := keys + [id.value];
          entries := entries[id.value := Entry(vectorHits[i], RankWeight(alpha, i))];
        }
      }
    }
    assert vectorHits[..|vectorHits|] == vectorHits;
  }

  /** The fusion and ranking of `hybrid_search`: two loops fill the dict, then the
      values are sorted by score and the first `size` papers returned. */
  method Fuse<P>(keywordHits: seq<P>, vectorHits: seq<P>, idOf: P -> Option<string>,
                 size: int, alpha: real) returns (papers: seq<P>)
    ensures papers == Papers(Ranking(keywordHits, vectorHits, idOf, size, alpha))
  {
    var keys0, entries0 := KeywordLoop(keywordHits, idOf, alpha);
    var keys, entries := VectorLoop(keys0, entries0, vectorHits, idOf, alpha);
    FusedValid(keywordHits, vectorHits, idOf, alpha);
    var items := Items(Fusion(keys, entries));
    var top := Take(SortDescBy(items, ItemScore), size);
    papers := Papers(top);
  }

  /** `hybrid_search`: keyword hits from Elasticsearch fused with the (empty)
      vector hits. */
  method HybridSearch<P>(query: string, filters: Option<seq<(string, FilterValue)>>, size: int,
                         alpha: real, es: EsQuery -> seq<P>, idOf: P -> Option<string>)
    returns (papers: seq<P>)
    ensures papers == Papers(Ranking(es(KeywordQueryOf(query, filters, size)), [], idOf, size, alpha))
  {
    var keywordHits := KeywordSearch(query, filters, size, es);
    var vectorHits := VectorSearch<P>(query, size);
    papers := Fuse(keywordHits, vectorHits, idOf, size, alpha);
  }

  /** `rerank_results`: the first `size` results, unchanged and in order. */
  function RerankResults<P>(query: string, results: seq<P>, size: int): (r: seq<P>)
    ensures r <= results
    ensures size >= 0 ==> |r| == Min(size, |results|)
  {
    Take(results, size)
  }

  // ---------------------------------------------------------------------------
  // Properties of the fusion

  lemma {:induction false} KeywordPassValid<P>(results: seq<P>, idOf: P -> Option<string>, alpha: real)
    ensures Valid(KeywordPass(results, idOf, alpha), idOf)
  {
    if results != [] {
      var i := |results| - 1;
      KeywordPassValid(results[..i], idOf, alpha);
    }
  }

  lemma {:induction false} VectorPassValid<P>(f: Fusion<P>, results: seq<P>, idOf: P -> Option<string>, alpha: real)
    requires Valid(f, idOf)
    ensures Valid(VectorPass(f, results, idOf, alpha), idOf)
  {
    if results != [] {
      var i := |results| - 1;
      VectorPassValid(f, results[..i], idOf, alpha);
    }
  }

  /** The fused dict has distinct keys, each stored under its paper's id. */
  lemma FusedValid<P>(keywordHits: seq<P>, vectorHits: seq<P>, idOf: P -> Option<string>, alpha: real)
    ensures Valid(Fused(keywordHits, vectorHits, idOf, alpha), idOf)
  {
    KeywordPassValid(keywordHits, idOf, alpha);
    VectorPassValid(KeywordPass(keywordHits, idOf, alpha), vectorHits, idOf, alpha);
  }

  /** Whether some hit carries `id`. */
  ghost predicate Mentions<P>(hits: seq<P>, idOf: P -> Option<string>, id: string)
  {
    exists j :: 0 <= j < |hits| && idOf(hits[j]) == Some(id)
  }

  /** The keyword contribution to `id`: (1 - alpha) / (r + 1) for the LAST rank r
      that carries it (a later duplicate overwrites), 0 when none does. */
  function KeywordScore<P>(hits: seq<P>, idOf: P -> Option<string>, alpha: real, id: string): real
  {
    if hits == [] then 0.0
    else if idOf(hits[|hits| - 1]) == Some(id) then RankWeight(1.0 - alpha, |hits| - 1)
    else KeywordScore(hits[..|hits| - 1], idOf, alpha, id)
  }

  /** The vector contribution to `id`: alpha / (r + 1) summed over every rank r
      that carries it. */
  function VectorScore<P>(hits: seq<P>, idOf: P -> Option<string>, alpha: real, id: string): real
  {
    if hits == [] then 0.0
    else
      VectorScore(hits[..|hits| - 1], idOf, alpha, id)
      + (if idOf(hits[|hits| - 1]) == Some(id) then RankWeight(alpha, |hits| - 1) else 0.0)
  }

  lemma {:induction false} KeywordPassScores<P>(hits: seq<P>, idOf: P -> Option<string>, alpha: real, id: string)
    ensures id in KeywordPass(hits, idOf, alpha).entries <==> id != "" && Mentions(hits, idOf, id)
    ensures id in KeywordPass(hits, idOf, alpha).entries ==>
              KeywordPass(hits, idOf, alpha).entries[id].score == KeywordScore(hits, idOf, alpha, id)
  {
    if hits != [] {
      var i := |hits| - 1;
      KeywordPassScores(hits[..i], idOf, alpha, id);
      assert forall j :: 0 <= j < i ==> hits[..i][j] == hits[j];
      if Mentions(hits, idOf, id) && idOf(hits[i]) != Some(id) {
        var j :| 0 <= j < |hits| && idOf(hits[j]) == Some(id);
        assert j < i && hits[..i][j] == hits[j];
      }
    }
  }

  lemma {:induction false} VectorPassScores<P>(kw: seq<P>, hits: seq<P>, idOf: P -> Option<string>, alpha: real, id: string)
    ensures id in Fused(kw, hits, idOf, alpha).entries <==>
              id != "" && (Mentions(kw, idOf, id) || Mentions(hits, idOf, id))
    ensures id in Fused(kw, hits, idOf, alpha).entries ==>
              Fused(kw, hits, idOf, alpha).entries[id].score
                == KeywordScore(kw, idOf, alpha, id) + VectorScore(hits, idOf, alpha, id)
  {
    if hits == [] {
      KeywordPassScores(kw, idOf, alpha, id);
      KeywordScoreAbsent(kw, idOf, alpha, id);
    } else {
      var i := |hits| - 1;
      VectorPassScores(kw, hits[..i], idOf, alpha, id);
      KeywordScoreAbsent(kw, idOf, alpha, id);
      VectorScoreAbsent(hits[..i], idOf, alpha, id);
      assert forall j :: 0 <= j < i ==> hits[..i][j] == hits[j];
      if Mentions(hits, idOf, id) && idOf(hits[i]) != Some(id) {
        var j :| 0 <= j < |hits| && idOf(hits[j]) == Some(id);
        assert j < i && hits[..i][j] == hits[j];
      }
    }
  }

  lemma {:induction false} KeywordScoreAbsent<P>(hits: seq<P>, idOf: P -> Option<string>, alpha: real, id: string)
    ensures !Mentions(hits, idOf, id) ==> KeywordScore(hits, idOf, alpha, id) == 0.0
  {
    if hits != [] && !Mentions(hits, idOf, id) {
      var i := |hits| - 1;
      KeywordScoreAbsent(hits[..i], idOf, alpha, id);
      assert forall j :: 0 <= j < i ==> hits[..i][j] == hits[j];
    }
  }

  lemma {:induction false} VectorScoreAbsent<P>(hits: seq<P>, idOf: P -> Option<string>, alpha: real, id: string)
    ensures !Mentions(hits, idOf, id) ==> VectorScore(hits, idOf, alpha, id) == 0.0
  {
    if hits != [] && !Mentions(hits, idOf, id) {
      var i := |hits| - 1;
      VectorScoreAbsent(hits[..i], idOf, alpha, id);
      assert forall j :: 0 <= j < i ==> hits[..i][j] == hits[j];
    }
  }

  /** The fused ranking: at most `size` entries (for a non-negative size), no id
      twice, each paper under its own id, scores non-increasing, and papers of
      equal score in dict insertion order. */
  lemma RankingFacts<P>(keywordHits: seq<P>, vectorHits: seq<P>, idOf: P -> Option<string>,
                        size: int, alpha: real)
    ensures var r := Ranking(keywordHits, vectorHits, idOf, size, alpha);
            && (size >= 0 ==> |r| <= size)
            && (forall a, b :: 0 <= a < b < |r| ==> r[a].0 != r[b].0)
            && (forall k :: 0 <= k < |r| ==> idOf(r[k].1.paper) == Some(r[k].0))
            && (forall a, b :: 0 <= a < b < |r| ==> r[a].1.score >= r[b].1.score)
  {
    var f := Fused(keywordHits, vectorHits, idOf, alpha);
    FusedValid(keywordHits, vectorHits, idOf, alpha);
    var sorted := SortDescBy(Items(f), ItemScore);
    SortedItems(f, idOf, sorted);
    var r := Take(sorted, size);
    forall k | 0 <= k < |r| ensures idOf(r[k].1.paper) == Some(r[k].0) {
      assert r[k] == sorted[k];
    }
    forall a, b | 0 <= a < b < |r| ensures r[a].0 != r[b].0 && r[a].1.score >= r[b].1.score {
      assert r[a] == sorted[a] && r[b] == sorted[b];
    }
  }

  /** The dict's items sorted by score: no id twice, each paper under its own
      id, scores non-increasing. */
  lemma SortedItems<P>(f: Fusion<P>, idOf: P -> Option<string>, sorted: seq<(string, Entry<P>)>)
    requires Valid(f, idOf) && sorted == SortDescBy(Items(f), ItemScore)
    ensures forall a, b :: 0 <= a < b < |sorted| ==> sorted[a].0 != sorted[b].0
    ensures forall k :: 0 <= k < |sorted| ==> idOf(sorted[k].1.paper) == Some(sorted[k].0)
    ensures forall a, b :: 0 <= a < b < |sorted| ==> sorted[a].1.score >= sorted[b].1.score
  {
    var items := Items(f);
    SortDescByFacts(items, ItemScore);
    PermutationKeepsElements(items, sorted);
    assert NoDuplicates(items) by {
      forall a, b | 0 <= a < b < |items| ensures items[a] != items[b] {
        assert items[a].0 == f.keys[a] && items[b].0 == f.keys[b];
      }
    }
    PermutationNoDuplicates(items, sorted);
    forall k | 0 <= k < |sorted|
      ensures sorted[k].0 in f.entries && sorted[k] == (sorted[k].0, f.entries[sorted[k].0])
    {
      assert sorted[k] in sorted;
      assert sorted[k] in items;
      var j :| 0 <= j < |items| && items[j] == sorted[k];
    }
    forall a, b | 0 <= a < b < |sorted| ensures sorted[a].1.score >= sorted[b].1.score {
      assert ItemScore(sorted[a]) >= ItemScore(sorted[b]);
    }
  }

  /** Among papers of one fused score, the ranking keeps the dict's order. */
  lemma RankingStable<P>(keywordHits: seq<P>, vectorHits: seq<P>, idOf: P -> Option<string>, alpha: real, v: real)
    ensures var f := Fused(keywordHits, vectorHits, idOf, alpha);
            var n := |f.keys|;
            Valid(f, idOf) &&
            WithKey(Ranking(keywordHits, vectorHits, idOf, n, alpha), ItemScore, v) == WithKey(Items(f), ItemScore, v)
  {
    var f := Fused(keywordHits, vectorHits, idOf, alpha);
    FusedValid(keywordHits, vectorHits, idOf, alpha);
    var sorted := SortDescBy(Items(f), ItemScore);
    SortDescByFacts(Items(f), ItemScore);
    SortDescByLength(Items(f), ItemScore);
    assert Take(sorted, |f.keys|) == sorted;
  }
}
