# AutoScholar backend core in Dafny

AutoScholar is a research-paper assistant. Its Python backend answers search requests,
recommends papers, draws citation and similarity graphs, compares a handful of papers
side by side, formats citations, scores the novelty of a manuscript, and ingests
records from the OpenAlex and Springer Nature APIs. This project models the
deterministic logic that sits between the backend's external services and proves
properties of it.

The external services are never modelled from the inside. They are the Elasticsearch
client, the OpenAlex and Springer HTTP APIs, the sentence embedder, the summariser and
the question-answering pipeline. Each one becomes a parameter of the operation that
uses it: either the response it returned, or a function-typed parameter such as
`embed`, `summarise`, `similarity`, `norm` or `log2`. Everything computed from those
answers is modelled as the source computes it.

Modules follow the source files:

- `SearchApi` and `NoveltyApi`: the search and novelty endpoints.
- `Search`: query building, hybrid rank fusion and reranking.
- `Recommendations`: the placeholder recommenders, deduplication by id, and round-robin
  diversification by topic.
- `Graph`: citation and similarity graph assembly.
- `Compare`, `PaperLookup`, `Metrics`, `Evidence` and `Sentences`: the paper comparison
  pipeline. This covers paper lookup, the three n×n metric matrices, the evidence graph
  with its fallback, citation labels, and sentence splitting with the 0.45 support
  threshold.
- `AiService`: keyword extraction, the summary and answer guards, embeddings and
  cosine similarity.
- `Novelty`: the novelty score.
- `Citations`: the APA, MLA, Chicago and BibTeX formatters.
- `OpenAlex`: identifier classification and request building.
- `Springer`: the paging loop and record mapping.
- `Py` and `Seqs`: the Python built-ins the source relies on. These are string strip,
  lower, split and join, slicing, dict insertion order, and the stable
  `sorted(..., reverse=True)`.

Code that updates state step by step is modelled by methods with loops. This covers
the frequency dicts, the matrix loops, the edge lists, fusion, diversification, graph
assembly and the Springer crawl. Each such method is proved against a specification
function, and the properties are proved about that function.

Three behaviours of the code are easy to misread, and the model follows the code in each:

- Every index lookup in `compare_papers` degrades to an empty source when it raises
  (backend/api/ai_features.py:125-126). Yet a paper found neither in the index nor in
  OpenAlex has no abstract and a None title, so `extract_keywords(None)`
  (ai_features.py:199) raises and the whole request fails with status 500.
  `Compare.OutcomeFails` states exactly when this happens.
- The search endpoint passes `filters.dict()`, which has all five filter keys, to
  keyword search. Because each filter overwrites the previous `term`, only the last key
  (`journals`) survives, even when it is None. See `SearchApi.OnlyJournalsFilter`.
- `resolve_work` keeps the second piece of `split('openalex.org/')`. For an id with a
  second occurrence of that marker, this is the segment between the first and the
  second occurrence, not the whole rest of the id.

## Model

| member | source | states |
|---|---|---|
| SearchApi.Autocomplete | backend/api/search.py:64-82 | at most five suggestions; `min(size, 5)` of them for a non-negative size and `max(0, 5 + size)` for a negative one (Python's `[:size]`); every suggestion starts with the query |
| SearchApi.AutocompleteOrder | backend/api/search.py:74-82 | with `size >= 5` the suggestions are exactly the five fixed continuations in order research, papers, methodology, review, analysis |
| SearchApi.FilterDict | backend/api/search.py:10-38 | `filters.dict()` has all five fields, unset ones as None, and its last entry is `journals` |
| SearchApi.Dispatch | backend/api/search.py:44-49 | "keyword" selects keyword search, "vector" selects vector search, and every other value selects hybrid search (each an if-and-only-if) |
| SearchApi.SearchEndpoint | backend/api/search.py:25-62 | status 500 exactly when a keyword or hybrid search's index query raises (a vector search never does); otherwise `total` is the number of hits before reranking; the results are the first `min(size, total)` hits in order; `page` and `size` are echoed |
| SearchApi.VectorSearchIsEmpty | backend/api/search.py:46-47 | a vector search never fails and answers with no results, total 0, and the request's page and size |
| SearchApi.OnlyJournalsFilter | backend/api/search.py:38-45 | whatever filters are set, the keyword query built by the endpoint filters on `journals` alone (`terms` when set, `term: None` otherwise) |
| NoveltyApi.ScoreNovelty | backend/api/novelty.py:16-23 | a request with neither a truthy title nor a truthy abstract is refused with 400 and that detail (both directions); otherwise the score is the scorer's on the title and abstract (missing as ''), the references (missing as []) and 50 candidates |
| NoveltyApi.AcceptedScoresBounded | backend/api/novelty.py:21-23 | an accepted request reports a novelty and an overlap score in [0, 1] |
| Metrics.CitationOverlap | backend/api/ai_features.py:212-219 | the citation overlap of two reference sets lies in [0, 1] and is 0.0 exactly when they share no reference |
| Metrics.KeywordOverlap | backend/api/ai_features.py:221-227 | the keyword Jaccard index lies in [0, 1] and is 0.0 exactly when the keyword sets share no word (including both empty) |
| Metrics.OverlapsSymmetric | backend/api/ai_features.py:212-227 | both overlaps are symmetric in their two sets |
| Metrics.CitationOverlapFull | backend/api/ai_features.py:214-217 | for non-empty reference sets the overlap is 1.0 exactly when one set contains the other |
| Metrics.KeywordOverlapFull | backend/api/ai_features.py:223-226 | for keyword sets that are not both empty the index is 1.0 exactly when the sets are equal |
| Metrics.CitationEntry | backend/api/ai_features.py:205-219 | a citation matrix entry lies in [0, 1] and is 1.0 on the diagonal |
| Metrics.KeywordEntry | backend/api/ai_features.py:205-227 | a keyword matrix entry lies in [0, 1] and is 1.0 on the diagonal |
| Metrics.EmbeddingSymmetric | backend/api/ai_features.py:169-176 | the embedding matrix is symmetric, and an off-diagonal entry is 0.0 when either embedding is empty |
| Metrics.OverlapMatricesSymmetric | backend/api/ai_features.py:203-227 | the citation and keyword matrices are symmetric |
| Metrics.EmbeddingMatrix | backend/api/ai_features.py:169-176 | the nested loop fails exactly when `cosine_sim` raises on some pair of embeddings, and otherwise yields a fresh n x n matrix whose every entry is 1.0 on the diagonal and the cosine of the two embeddings elsewhere |
| Metrics.OverlapCell | backend/api/ai_features.py:207-227 | one loop iteration computes exactly the citation and the keyword matrix entry of the pair |
| Metrics.OverlapMatrices | backend/api/ai_features.py:203-227 | the nested loop yields two distinct fresh n x n matrices holding the citation and keyword entry of every pair |
| Metrics.OverlapRow | backend/api/ai_features.py:206-227 | the inner loop fills row i of both matrices with their entries and leaves every other row unchanged |
| PaperLookup.SourceOf | backend/api/ai_features.py:122-126 | a lookup that raised yields the empty source |
| PaperLookup.OaAbstract | backend/api/ai_features.py:134 | the OpenAlex abstract is `abstract` when truthy, and '' when it is falsy and the inverted index has no words |
| PaperLookup.PaperFor | backend/api/ai_features.py:120-143 | the record keeps the requested id; an index source gives the title and no OpenAlex work; an empty source falls back to OpenAlex (title from `display_name`, else `title`, and the OpenAlex abstract); with neither, the title is None and the abstract '' |
| PaperLookup.GatherPapers | backend/api/ai_features.py:118-143 | the loop yields one record per requested id, in order, each the record of that id |
| PaperLookup.KeywordText | backend/api/ai_features.py:194 | keywords are drawn from the abstract when it is non-empty; the text is None (so `extract_keywords` raises) exactly when the abstract is empty and the title is None |
| PaperLookup.RefSource | backend/api/ai_features.py:189-192 | references come from `references`, else `reference_ids`; when neither is truthy and the paper was resolved through OpenAlex, from its `referenced_works`; a truthy field comes from the index or from OpenAlex |
| PaperLookup.RefTextIds | backend/api/ai_features.py:193-196 | an id read from a comma-separated string is exactly a non-empty trimmed piece of it (both directions), so it is never empty, padded or holding a comma |
| PaperLookup.OaAuthorName | backend/api/ai_features.py:242-251 | a non-dict authorship is taken as text; a dict without an `author` object gives `str()` of its `display_name` |
| PaperLookup.OaAuthorNames | backend/api/ai_features.py:242-251 | one name per authorship, in order |
| PaperLookup.IndexAuthors | backend/api/ai_features.py:236 | the index's author names are kept one for one, in order |
| PaperLookup.RefMeta | backend/api/ai_features.py:229-259 | an id the index knows keeps that id, with title from `title` or `name` and one author per stored author (none for an empty source); otherwise the resolved OpenAlex work gives its own id when set, its `display_name` or `title` and one author per authorship; otherwise the metadata is the raw id as both id and title, with no authors and no year |
| OpenAlex.NormalizeDoi | backend/services/openalex.py:15-16 | the normalised DOI is no longer than the input, has no surrounding whitespace and is all lower case |
| OpenAlex.NormalizeDoiIdempotent | backend/services/openalex.py:15-16 | normalising twice is normalising once |
| OpenAlex.AfterMarker | backend/services/openalex.py:35-39 | an identifier that does not start with the tested prefix is used as it is |
| OpenAlex.RequestPath | backend/services/openalex.py:30-40 | an identifier taken for a DOI is requested under "doi:" |
| OpenAlex.ResolveUrl | backend/services/openalex.py:25-40 | a URL is requested exactly when the identifier is non-empty |
| OpenAlex.ResolveUrlIgnoresPadding | backend/services/openalex.py:27 | surrounding whitespace never changes the requested URL |
| OpenAlex.IsDoiLower | backend/services/openalex.py:30 | lower-casing keeps an identifier a DOI |
| OpenAlex.ResolveUrlDoiCaseInsensitive | backend/services/openalex.py:30-32 | a DOI is requested by the same URL whatever its letter case |
| OpenAlex.FindIdMarker | backend/services/openalex.py:37 | in an OpenAlex work URL the first "openalex.org/" follows "https://" |
| OpenAlex.SiteStripped | backend/services/openalex.py:27 | an OpenAlex work URL without trailing whitespace is unchanged by `strip()` |
| OpenAlex.SiteNotDoi | backend/services/openalex.py:30-35 | an OpenAlex work URL is never taken for a DOI and starts with "http" |
| OpenAlex.SiteSplit | backend/services/openalex.py:37 | splitting an OpenAlex work URL on the marker gives "https://" and the work id |
| OpenAlex.SitePath | backend/services/openalex.py:35-39 | an OpenAlex work URL is cut to its work id, both by `resolve_work`'s "http" test and by `get_citing_works`'s "https://" test |
| OpenAlex.SiteRequestPath | backend/services/openalex.py:30-40 | an OpenAlex work URL is requested by its work id |
| OpenAlex.ResolveUrlOpenAlexUrl | backend/services/openalex.py:25-40 | an OpenAlex work URL is requested as `BASE/works/` followed by its work id |
| OpenAlex.ResolveWork | backend/services/openalex.py:19-48 | None for an empty identifier; a work exactly when the request answers 200 with a body that parses, and then that body |
| OpenAlex.CitingRequest | backend/services/openalex.py:59-64 | the citing query goes to `BASE/works` with filter `referenced_works:` and the id (cut to its work id when it starts with "https://"), and the requested page size |
| OpenAlex.CitingWorks | backend/services/openalex.py:51-73 | [] without a request for a missing or empty id; the results of a 200 answer; and a non-empty result only from a 200 answer to that query |
| OpenAlex.Fetched | backend/services/openalex.py:87-95 | the fetch returns at most one work per id |
| OpenAlex.ReferencedIds | backend/services/openalex.py:81-85 | nothing is fetched when the work does not resolve; otherwise its referenced works cut to `per_page` (Python's `[:per_page]`) |
| OpenAlex.FetchWorks | backend/services/openalex.py:86-95 | the loop returns the works gathered in order, skipping non-200 answers and stopping with what it has at the first exception |
| OpenAlex.GetReferencedWorks | backend/services/openalex.py:76-95 | the result is the fetch of the referenced ids of the resolved work |
| OpenAlex.ReferencedWorksBounded | backend/services/openalex.py:81-95 | at most `per_page` works, never more than the work references, and none when the work does not resolve |
| OpenAlex.FetchedAllOk | backend/services/openalex.py:89-92 | when every fetch answers 200 with a work, the result is exactly those works, one per id, in id order |
| OpenAlex.FetchedFromIds | backend/services/openalex.py:89-92 | every work returned is the 200 answer to the fetch of one of the ids |
| AiService.GenerateSummary | backend/services/ai_features.py:36-52 | a text with fewer whitespace tokens than `min_length` comes back unchanged; otherwise the summariser's output; when the summariser raises, a prefix of the text of `min(max_length * 10, len(text))` characters |
| AiService.AnswerQuestion | backend/services/ai_features.py:54-74 | the pipeline's answer, or on failure the fixed fallback answer with score 0.0, start 0 and end 0 |
| AiService.LongTokensAreLong | backend/services/ai_features.py:85-87 | every counted word is one of the words and is longer than 3 characters |
| AiService.ExtractKeywords | backend/services/ai_features.py:76-93 | the counting loop over an insertion-ordered dict, the stable descending sort by count and the cut to `top_n` yield exactly the keywords of the text |
| AiService.TallyItems | backend/services/ai_features.py:83-87 | each dict item holds its word's number of occurrences, and the keys come in first-occurrence order |
| AiService.KeywordsAreLongTokens | backend/services/ai_features.py:82-93 | every keyword is a lower-cased whitespace token of the text longer than 3 characters |
| AiService.TallyNoDuplicates | backend/services/ai_features.py:83-87 | the dict items are distinct |
| AiService.KeywordsDistinct | backend/services/ai_features.py:90-93 | the keywords are distinct |
| AiService.KeywordsCount | backend/services/ai_features.py:90-93 | with `top_n >= 0` there are exactly `min(top_n, number of distinct counted words)` keywords |
| AiService.TallyKeyUnique | backend/services/ai_features.py:83-87 | two dict items with the same word are the same item |
| AiService.KeywordsOrder | backend/services/ai_features.py:85-93 | keywords come in non-increasing order of frequency, and among words of equal frequency the sorted items keep first-occurrence order |
| AiService.AutoTagPaper | backend/services/ai_features.py:122-130 | the tags are the top 5 keywords of "title. abstract", so at most 5 |
| AiService.Zeros | backend/services/ai_features.py:105 | the zero vector has the requested length and only 0.0 entries |
| AiService.CosineSim | backend/services/ai_features.py:111-120 | defined exactly where numpy does not raise: one side empty, a zero product of the norms, or equal lengths; 0.0 when either vector is empty or the norm product is 0 |
| AiService.DotSymmetric | backend/services/ai_features.py:120 | the dot product is symmetric |
| AiService.CosineSymmetric | backend/services/ai_features.py:111-120 | cosine similarity is symmetric |
| AiService.CosineSelf | backend/services/ai_features.py:117-120 | with an exact Euclidean norm, a non-zero vector has similarity 1.0 with itself |
| AiService.AiFeatureService.constructor | backend/services/ai_features.py:28-34 | the service records the configured dimension and whether the embedder loaded |
| AiService.AiFeatureService.EmbedTexts | backend/services/ai_features.py:95-109 | [] for no texts, with the embedder state unchanged; when the embedder is missing and reloading fails, one zero vector of the configured dimension per text, and it stays unloaded; otherwise the embedder is loaded and encodes the batch |
| Novelty.Cosine | backend/services/novelty.py:34-41 | 0.0 when either embedding is missing or the norm product is 0; it fails (numpy raises) exactly when both are present, the norm product is non-zero and the lengths differ |
| Novelty.CosineAgreesWithService | backend/services/novelty.py:34-41 | on two non-empty vectors `_cosine` fails exactly where the AI service's `cosine_sim` raises, and agrees with it elsewhere |
| Novelty.CosineSymmetric | backend/services/novelty.py:34-41 | `_cosine` is symmetric, failures included |
| Novelty.CountTokens | backend/services/novelty.py:47-49 | the counting loop leaves the dict keys in first-occurrence order, each holding its token's number of occurrences |
| Novelty.AccumulateEntropy | backend/services/novelty.py:50-54 | the entropy loop subtracts `p * log2(p)` for every count, in dict order |
| Novelty.EntropyNorm | backend/services/novelty.py:43-58 | `_entropy_norm` is the accumulated entropy over log2 of the vocabulary size, and 0.0 for an empty text, no tokens or a vocabulary of at most one word |
| Novelty.EntropyCaseInsensitive | backend/services/novelty.py:45 | lower-casing the text first does not change its entropy |
| Novelty.EntropyOfBlank | backend/services/novelty.py:44-46 | an all-whitespace text has entropy 0.0 |
| Novelty.EntropyOfOneWord | backend/services/novelty.py:56-57 | a text repeating one word, up to case, has entropy 0.0 |
| Novelty.DistinctOfConstant | backend/services/novelty.py:47-56 | tokens that are all equal give a vocabulary of at most one word |
| Novelty.Query | backend/services/novelty.py:72 | the search query starts with the title and a space and adds at most 300 characters of the abstract |
| Novelty.Candidates | backend/services/novelty.py:68-75 | no candidates when the search service is unavailable; otherwise the hits of the search for the query and `top_k` (none when it raises) |
| Novelty.Similarities | backend/services/novelty.py:77-90 | when every cosine succeeds, one entry per candidate in order, holding its id (first truthy of id, paper_id, doi, title), its title and its similarity; if any cosine raises, no entries |
| Novelty.MaxSimilarity | backend/services/novelty.py:92 | the maximum similarity: 0.0 for none, at least every entry and attained by one |
| Novelty.SimilarCount | backend/services/novelty.py:93 | the number of entries with similarity >= 0.7: at most the entries, 0 exactly when all are below 0.7, all exactly when all reach it |
| Novelty.CandidateRefSets | backend/services/novelty.py:100-102 | one reference set per candidate, from `references`, else `citations`, trimmed and lower-cased; a string value is iterated one character at a time |
| Novelty.RefItems | backend/services/novelty.py:100-101 | iterating a string-valued `references` or `citations` yields its characters, one per item, in order |
| Novelty.CandidateRefSetOfText | backend/services/novelty.py:100-101 | a hit whose `references` is a non-empty string contributes exactly the trimmed, lower-cased keys of its single characters |
| Novelty.MaxOverlapIsMax | backend/services/novelty.py:100-107 | `max_overlap` bounds the overlap with every non-empty candidate set and is 0 or attained by one of them |
| Novelty.MaxOverlapBounded | backend/services/novelty.py:105-107 | `max_overlap` never exceeds the size of the paper's own reference set |
| Novelty.OverlapScore | backend/services/novelty.py:109 | the overlap score lies in [0, 1]; it is 0.0 for no overlap and 1.0 once the overlap reaches `max(1, len(references))` |
| Novelty.QuotientBounds | backend/services/novelty.py:109 | the quotient of a non-negative overlap by a positive count is non-negative, and at least 1 once the overlap reaches the count |
| Novelty.Clamp01 | backend/services/novelty.py:116 | the clamp lies in [0, 1] and is the identity there |
| Novelty.CombineMonotone | backend/services/novelty.py:115-116 | more similarity or overlap never raises novelty, more entropy never lowers it, and novelty lies in [0, 1] |
| Novelty.CombineUnclamped | backend/services/novelty.py:115-116 | with all three components in [0, 1] the weighted sum needs no clamping |
| Novelty.ScoreCandidates | backend/services/novelty.py:78-90 | the similarity loop yields the similarities list, and nothing once a cosine raises |
| Novelty.LargestOverlap | backend/services/novelty.py:100-107 | the overlap loop skips candidates without references and yields `max_overlap` |
| Novelty.ScorePaper | backend/services/novelty.py:60-128 | `score_paper` returns the scored record (novelty, breakdown and examples) of the paper |
| Novelty.ScoreBounds | backend/services/novelty.py:92-127 | novelty and the overlap score lie in [0, 1]; the similar count is at most the entries, which are at most the candidates; the examples are `min(10, entries)` of the entries sorted by non-increasing similarity; without references or candidates the overlap is 0 |
| Novelty.SortedAttainsMax | backend/services/novelty.py:92-127 | after sorting by similarity no entry exceeds the maximum and the first attains it |
| Novelty.ExamplesAttainMax | backend/services/novelty.py:92-127 | every example's similarity is at most `max_similarity`, and the first example attains it |
| Search.KeywordQuery | backend/services/search.py:39-67 | the query has exactly the one BM25 `multi_match` clause (title boosted 3, abstract 2, keywords) and the requested size; no filter key without filters; with a non-empty filter dict the filter holds only the clause of its LAST entry (`terms` for a list, `term` otherwise), since the loop overwrites it |
| Search.KeywordSearch | backend/services/search.py:36-74 | the hits are Elasticsearch's sources for exactly that query |
| Search.VectorSearch | backend/services/search.py:76-91 | always the empty list: the FAISS ids are never turned into papers |
| Search.KeywordLoop | backend/services/search.py:104-113 | the keyword loop builds the dict the specification `KeywordPass` describes (later duplicates overwrite, keeping their place in key order; falsy ids skipped) |
| Search.VectorLoop | backend/services/search.py:115-125 | the vector loop adds `alpha / (rank + 1)` to a present id and inserts an absent one, as `VectorPass` describes |
| Search.Fuse | backend/services/search.py:104-134 | the returned papers are those of the fused ranking: dict values sorted by score, largest first and stable, cut to `size` |
| Search.HybridSearch | backend/services/search.py:93-134 | `hybrid_search` returns the fused ranking of the keyword hits for `keyword_search`'s query and the (empty) vector hits |
| Search.RerankResults | backend/services/search.py:136-143 | the result is a prefix of the input, of length `min(size, len)` for a non-negative size |
| Search.KeywordPassValid | backend/services/search.py:104-113 | after the keyword loop the dict's keys are distinct, are exactly its entries, and each entry's paper has its key as id |
| Search.VectorPassValid | backend/services/search.py:115-125 | the vector loop preserves that invariant |
| Search.FusedValid | backend/services/search.py:104-125 | the fused dict satisfies the invariant |
| Search.KeywordPassScores | backend/services/search.py:107-113 | an id is in the dict after the keyword loop iff it is non-empty and some hit carries it, and its score is `(1 - alpha) / (r + 1)` for the last rank r carrying it |
| Search.VectorPassScores | backend/services/search.py:104-125 | an id is in the fused dict iff it is non-empty and occurs in either hit list; its score is the keyword contribution plus `alpha / (r + 1)` summed over every vector rank r carrying it |
| Search.KeywordScoreAbsent | backend/services/search.py:107-113 | an id no keyword hit carries gets no keyword contribution |
| Search.VectorScoreAbsent | backend/services/search.py:116-125 | an id no vector hit carries gets no vector contribution |
| Search.RankingFacts | backend/services/search.py:127-134 | the fused ranking has at most `size` entries, no id twice, each paper under its own id, and non-increasing scores |
| Search.RankingStable | backend/services/search.py:127-132 | uncut, the ranking lists the papers of any one score in dict insertion order, as Python's stable `sorted` does |
| Recommendations.ContentBasedRecommendations | backend/services/recommendations.py:15-33 | always empty: it returns the placeholder vector search's result |
| Recommendations.CollaborativeRecommendations | backend/services/recommendations.py:35-47 | always empty: the similar users' list is a literal empty list |
| Recommendations.TrendingPapers | backend/services/recommendations.py:64-75 | always empty, whatever the topic |
| Recommendations.DedupById | backend/services/recommendations.py:58-59 | the dict comprehension keeps one record per distinct truthy id, ids in order of first occurrence, each the LAST record carrying that id, and never more records than the input |
| Recommendations.IdsOf | backend/services/recommendations.py:59 | the ids the comprehension keys on are exactly the truthy ids of the records |
| Recommendations.LastIndexBelow | backend/services/recommendations.py:59 | among the first `n` records, the position of one carrying the id after which none of them carries it |
| Recommendations.LastWithId | backend/services/recommendations.py:59 | the value stored under an id is an input record carrying that id, and no later input record carries it (later keys overwrite) |
| Recommendations.DedupDistinctIds | backend/services/recommendations.py:58-62 | the de-duplicated records carry pairwise distinct, truthy ids, and every truthy id of the input is represented |
| Recommendations.HybridRecommendations | backend/services/recommendations.py:49-62 | always empty, because both of its sources are placeholders |
| Recommendations.GroupByTopic | backend/services/recommendations.py:85-92 | after the grouping loop the dict's keys are the topics in order of first appearance, and each topic's list holds exactly the papers listing it, in input order |
| Recommendations.GroupStep | backend/services/recommendations.py:90-92 | one `topic_groups[topic].append(paper)` step (creating the list for a new topic at the end of the key order) keeps that description true |
| Recommendations.Pass | backend/services/recommendations.py:99-105 | one pass over the topics takes one paper per non-empty queue and drops the empty ones: as many heads as remaining queues, and no paper lost |
| Recommendations.RoundRobin | backend/services/recommendations.py:98-105 | the passes, repeated until no topic is left, emit every queued paper exactly once in count |
| Recommendations.RemoveFirst | backend/services/recommendations.py:105 | `list.remove` shortens the list by one |
| Recommendations.RemoveFirstAt | backend/services/recommendations.py:105 | on a list without duplicates, removing the topic at index i leaves the list with only that index deleted |
| Recommendations.PassPrefix | backend/services/recommendations.py:99-103 | a pass stopped after k topics (the `break` at `limit`) has emitted a prefix of the full pass |
| Recommendations.PopStep | backend/services/recommendations.py:100-101 | `pop(0)` of a non-empty topic queue emits its head and leaves the tail, keeping the pass invariant |
| Recommendations.RemoveStep | backend/services/recommendations.py:104-105 | removing a topic whose queue is empty drops it from the kept topics and keeps the pass invariant; the pass emits nothing for it |
| Recommendations.VisitTopic | backend/services/recommendations.py:99-105 | one iteration of `for topic in topics[:]` keeps the pass invariant and reports a stop exactly when `limit` papers are taken |
| Recommendations.DiversifyPass | backend/services/recommendations.py:99-105 | one pass over the snapshot `topics[:]`: either every topic is visited below `limit`, or it stops right when `limit` is reached; what is taken is the pass's heads so far |
| Recommendations.StoppedOutcome | backend/services/recommendations.py:101-103 | a pass cut short by `break` appends a prefix of the pass's heads and leaves exactly `limit` papers |
| Recommendations.FinishedOutcome | backend/services/recommendations.py:99-105 | a completed pass appends all its heads and leaves the pass's tails as the queues |
| Recommendations.RoundStep | backend/services/recommendations.py:98-105 | every iteration of the `while` loop keeps the taken list a prefix of the round robin, with the rest still to come from the queues left |
| Recommendations.InPassMeasure | backend/services/recommendations.py:98-105 | the papers queued plus the topics kept drop by one per visited topic, so the `while` loop terminates |
| Recommendations.StartRound | backend/services/recommendations.py:94-96 | the loop starts from the grouped queues in key order with nothing taken |
| Recommendations.EndRound | backend/services/recommendations.py:98-107 | when the loop exits, `diverse_recs[:limit]` is the first `limit` papers of the round robin (empty for `limit <= 0`) |
| Recommendations.DiversifyRecommendations | backend/services/recommendations.py:77-107 | `diversify_recommendations` returns `[]` for an empty input, and otherwise the first `limit` papers of the round robin over the topic groups in first-seen order |
| Recommendations.TotalAppend | backend/services/recommendations.py:98-105 | the papers queued in two lists of queues add up |
| Recommendations.GroupTotal | backend/services/recommendations.py:85-92 | the topic groups hold every (topic, paper) pair exactly once |
| Recommendations.DiversifiedLength | backend/services/recommendations.py:77-107 | the result has `limit` papers, or one per (paper, topic) pair when there are fewer; a paper with several topics can appear once per topic |
| Recommendations.DiversifiedFromInputs | backend/services/recommendations.py:85-107 | every recommended paper is an input paper with at least one topic: papers without topics are never recommended |
| Graph.PaperId | backend/api/graph.py:11 | the node id is the first truthy of `id`, `paper_id`, `doi`, and otherwise `str(title)` (the string "None" when the title is absent) |
| Graph.NodeFromSource | backend/api/graph.py:10-18 | the node's id is `PaperId`; the title falls back to `name` and then to the id; authors default to `[]`; a year exists iff `year` or `published` is truthy, a url iff `url` or `pdf_url` is |
| Graph.CenterNode | backend/api/graph.py:82 | without an indexed target the centre is a bare node whose id and title are the requested id; otherwise it is the target's node |
| Graph.CitingNode | backend/api/graph.py:119-129 | a citing work's node id is its OpenAlex id, else its DOI; one author entry per authorship; a year exactly when OpenAlex gives one |
| Graph.Extend | backend/api/graph.py:86-92 | the seen-set loop only appends: the nodes before it stay a prefix |
| Graph.StarEdges | backend/api/graph.py:94-131 | one edge per node after the centre, from that node to the centre, with the endpoint's relation |
| Graph.AddNodes | backend/api/graph.py:84-94 | the loop's nodes are `Extend` of the candidates, its edges link each appended node to the centre, and the seen set is exactly the set of node ids |
| Graph.ExtendDistinct | backend/api/graph.py:84-92 | the seen set keeps node ids pairwise distinct |
| Graph.ExtendCovers | backend/api/graph.py:86-92 | every candidate's id ends up in the graph, and every appended node is a candidate |
| Graph.ExtendStar | backend/api/graph.py:79-94 | a graph grown from the centre by the loop is a star: centre first, distinct ids, one edge from each other node to the centre |
| Graph.TitleUrlClauses | backend/api/graph.py:52-59 | a non-empty title contributes match phrases on title and abstract first, a non-empty url matches on abstract and title last, two clauses each |
| Graph.TokenClauses | backend/api/graph.py:62-64 | at most one abstract match per token |
| Graph.FallbackShould | backend/api/graph.py:50-64 | the fallback clauses are exactly the title and url clauses: the token loop cannot add any, since a title has already added two |
| Graph.FallbackTokensNeverUsed | backend/api/graph.py:53-64 | with a non-empty title the clause list is already non-empty when the token branch is tested, so that branch is dead |
| Graph.CitationHits | backend/api/graph.py:44-77 | None (the endpoint raises) exactly when the references search raises, or it found nothing and the fallback search that then runs raises; otherwise the references query's hits when there are any, else the fallback query's hits when it has clauses, and none when it has none |
| Graph.ResolutionCandidates | backend/api/graph.py:101-112 | at most four identifiers are tried, and each is non-empty |
| Graph.FirstResolved | backend/api/graph.py:99-112 | a resolved work is the resolution of one of the identifiers tried |
| Graph.FirstResolvedIsFirst | backend/api/graph.py:99-112 | nothing resolves iff no identifier does; otherwise the result is that of the first identifier that resolves |
| Graph.Then | backend/api/graph.py:103-112 | `if not oa` keeps an earlier resolution and falls through otherwise |
| Graph.FirstResolvedAppend | backend/api/graph.py:101-112 | trying two lists of identifiers in turn is trying their concatenation |
| Graph.FirstResolvedSteps | backend/api/graph.py:101-112 | the candidate list is exactly the four optional tries of url, DOI, id and the requested id, in that order |
| Graph.ResolveTarget | backend/api/graph.py:99-112 | the OpenAlex lookup returns the first of url, DOI, id and the requested id that `resolve_work` resolves |
| Graph.OpenAlexCiting | backend/api/graph.py:97-117 | OpenAlex contributes citing works only when the index gave no hits |
| Graph.FetchCiting | backend/api/graph.py:97-117 | with no index hits, the works OpenAlex reports as citing the first resolvable form of the target; with hits, nothing |
| Graph.GetCitations | backend/api/graph.py:21-135 | status 500 exactly when an index search raises; otherwise the nodes are the centre followed by the distinct hits of the references or fallback query, then (with no hits) the distinct citing works of the resolved target; every edge is `cites`, from a node to the centre |
| Graph.ExtendAppend | backend/api/graph.py:84-131 | the two seen-set loops sharing one seen set act as one loop over both candidate lists |
| Graph.CitationsAreStar | backend/api/graph.py:79-133 | when no search raises, the citation graph is a star around the centre with relation `cites` and holds every hit's id |
| Graph.MatchAll | backend/api/graph.py:155-158 | one `match` clause per value, in order |
| Graph.SimilarShould | backend/api/graph.py:154-158 | the should list holds the matches of the first five authors followed by those of the first eight keywords, `min(5, authors) + min(8, keywords)` clauses |
| Graph.GetSimilar | backend/api/graph.py:138-193 | status 500 exactly when the similarity search raises; otherwise the nodes are the centre followed by the distinct hits of the similarity query; every edge is `similar`, to the centre |
| Graph.SimilarIsStar | backend/api/graph.py:173-191 | when the search succeeds, the similarity graph is a star around the centre and holds every hit's id; in particular the centre's own hit is never added twice |
| Evidence.RowMembers | backend/api/ai_features.py:271-273 | an edge is emitted in row i iff some column j != i emits it |
| Evidence.OrderedPairsMembers | backend/api/ai_features.py:270-273 | the nested loops emit exactly the edges of the ordered pairs (i, j) with i != j |
| Evidence.UpperRowMembers | backend/api/ai_features.py:325 | the inner fallback loop of row i emits exactly the edges of the columns j > i |
| Evidence.UnorderedPairsMembers | backend/api/ai_features.py:324-325 | the fallback loops emit exactly the edges of the pairs i < j |
| Evidence.UpperRowCount | backend/api/ai_features.py:325 | with two edges per pair, row i of the fallback loops emits two edges per later column |
| Evidence.UnorderedPairsCount | backend/api/ai_features.py:324-325 | with two edges per pair, the first m rows emit `m (2n - m - 1)` edges |
| Evidence.TitleOrId | backend/api/ai_features.py:297-299 | a reference's title when truthy, else its id |
| Evidence.Label | backend/api/ai_features.py:282-299 | with authors, the label is exactly the last word of the first author's name, " et al.", and ", year" when the year is truthy; an empty name gives exactly " et al." (plus ", year" when the year is truthy); a whitespace-only name (which makes `split()[-1]` raise) or no authors falls back to title, else id |
| Evidence.SurnameIsWord | backend/api/ai_features.py:291 | the surname the label starts with is a single non-empty word without whitespace |
| Evidence.UnresolvedLabel | backend/api/ai_features.py:261-297 | a reference neither the index nor OpenAlex knows is labelled by its raw id |
| Evidence.EvidenceList | backend/api/ai_features.py:278-301 | one evidence item per listed reference id, in order, each the resolved metadata's id, label and metadata |
| Evidence.Shared | backend/api/ai_features.py:276 | the shared references are the intersection (the empty-set guard changes nothing) |
| Evidence.PairEdgesSpec | backend/api/ai_features.py:274-317 | between papers i and j: a `shared_reference` edge iff their reference sets meet, a `cites` edge with no evidence iff i lists j's id, nothing else, every edge from i to j, and at most ten evidence items |
| Evidence.SharedEvidenceSpec | backend/api/ai_features.py:279 | `list(shared)[:10]` names `min(10, shared)` references, each in both papers' reference sets |
| Evidence.CitationEdgesMembers | backend/api/ai_features.py:270-317 | the citation edges are exactly the edges of the ordered pairs of distinct papers |
| Evidence.ResolveEvidence | backend/api/ai_features.py:278-301 | the evidence loop builds exactly `EvidenceList` of the ids |
| Evidence.EmitPair | backend/api/ai_features.py:274-317 | the body of the inner loop appends exactly the pair's edges |
| Evidence.EmitRow | backend/api/ai_features.py:271-317 | the inner loop appends row i's edges, skipping the diagonal |
| Evidence.CollectCitationEdges | backend/api/ai_features.py:268-317 | the nested loops produce the citation edges of all ordered pairs, row by row |
| Evidence.SemanticRefId | backend/api/ai_features.py:329 | the synthesised evidence id starts with "semantic:" |
| Evidence.SemanticEdgesCount | backend/api/ai_features.py:323-345 | n papers get n (n - 1) fallback edges |
| Evidence.SemanticEdgesSymmetric | backend/api/ai_features.py:334-345 | every fallback edge is `semantic_similarity` with one evidence item, and its reverse with the same item is present too |
| Evidence.CollectSemanticEdges | backend/api/ai_features.py:323-345 | the fallback loops produce, for each pair i < j in row order, the edge i -> j and then j -> i, sharing the similarity `sim[i][j]` and the shared keywords |
| Evidence.GraphEdgesSpec | backend/api/ai_features.py:268-345 | the fallback is used only when there is no citation edge and then yields n (n - 1) edges, so two or more papers always get a non-empty evidence graph |
| Citations.YearOf | backend/services/citations.py:13 | the year is the longest prefix of `publication_date` without '-', so the date starts with it and continues with '-' if longer; empty for an empty date |
| Citations.Invert | backend/services/citations.py:68-74 | a name of at most one word is kept as is; a longer one starts with its last word and ", " |
| Citations.InvertRotatesWords | backend/services/citations.py:68-72 | inverting rotates the name's words: the surname with a comma moves to the front and the given names follow in order |
| Citations.InvertJoins | backend/services/citations.py:69-72 | the inverted name is `f"{last}, {' '.join(rest)}"`, the rotated words joined by spaces |
| Citations.RotatedWords | backend/services/citations.py:69-72 | the rotated words joined by spaces split back into exactly those words |
| Citations.ApaAuthors | backend/services/citations.py:20-28 | no authors give "", one gives the name, two are joined by " & ", three or more give the first name and ", et al." |
| Citations.FormatApa | backend/services/citations.py:8-50 | the APA citation starts with "authors (year). title. " and ends with "." and the DOI link when a DOI is set |
| Citations.ApaNesting | backend/services/citations.py:33-43 | volume, issue and pages count only after a journal, and the issue only after a volume |
| Citations.MlaAuthors | backend/services/citations.py:64-92 | no authors give ""; otherwise the first author inverted, with " and " and the second name for two authors and ", et al." for three or more |
| Citations.FormatMla | backend/services/citations.py:52-117 | the MLA citation starts with `authors. "title." ` and ends with "." and " DOI: doi" when a DOI is set |
| Citations.MlaNesting | backend/services/citations.py:97-110 | without a journal MLA shows no volume, issue, pages or year; the issue counts only after a volume |
| Citations.ChicagoNames | backend/services/citations.py:143-154 | the list built for two or three authors has the first author inverted and the others as given |
| Citations.FormatChicagoNames | backend/services/citations.py:143-154 | the loop inverts only the author at index 0 and appends every other name unchanged |
| Citations.ChicagoAuthors | backend/services/citations.py:132-164 | no authors give "", one gives the inverted name, four or more give the inverted first name and ", et al." |
| Citations.ChicagoFewAuthors | backend/services/citations.py:142-156 | two authors give "First inverted, and Second"; three give "First inverted, Second, and Third" |
| Citations.FormatChicago | backend/services/citations.py:119-189 | the Chicago citation starts with `authors. "title."` and ends with "." and the DOI link when a DOI is set |
| Citations.ChicagoNesting | backend/services/citations.py:169-182 | without a journal Chicago shows no volume, issue, pages or year; the issue counts only after a volume |
| Citations.BibtexKey | backend/services/citations.py:204-210 | with authors and a year the key ends with the year; otherwise it is "paper" and the id; it fails exactly when there are authors and a year but the first name has no words (`split()[-1]` raises) |
| Citations.Field | backend/services/citations.py:217-240 | every field line ends with a closing brace |
| Citations.FieldIf | backend/services/citations.py:220-240 | an optional field contributes only brace-terminated lines |
| Citations.BibtexFields | backend/services/citations.py:217-240 | author and title are always present, and every field line ends with a brace |
| Citations.RStripChars | backend/services/citations.py:243 | `rstrip` returns a prefix that does not end in a stripped character |
| Citations.FormatBibtex | backend/services/citations.py:191-246 | the entry fails exactly when the key does |
| Citations.TerminatedJoin | backend/services/citations.py:216-240 | lines each followed by ",\n" are the lines joined by ",\n" plus a final ",\n" |
| Citations.StripTerminated | backend/services/citations.py:242-243 | stripping trailing commas and newlines removes exactly the final ",\n", because the last line ends with a brace |
| Citations.BibtexEntryShape | backend/services/citations.py:216-246 | the entry is "@article{key,\n", the field lines separated by ",\n", then "\n}": no field loses a character to `rstrip` |
| Citations.FormatCitation | backend/services/citations.py:248-261 | every style but "bibtex" succeeds, and any style other than mla, chicago and bibtex (after lower-casing) gives APA |
| Citations.FormatCitationCaseInsensitive | backend/services/citations.py:250 | the style is matched without regard to case |
| Citations.FormatMultiple | backend/services/citations.py:263-265 | the citations of every paper in order; it fails iff formatting one of them fails |
| Citations.FormatEach | backend/services/citations.py:265 | the list comprehension succeeds iff every element does, and then holds each element's result in order |
| Compare.Embedded | backend/services/ai_features.py:95-109 | no texts give no vectors; an embedder returning one vector per text gives one per text; an embedder that is not loaded and fails to load gives zero vectors of the configured dimension |
| Compare.ModePromptFull | backend/api/ai_features.py:151-162 | the "full" template is used exactly when the mode is unset, empty or not one of methods, results, datasets and novelty |
| Compare.PromptTail | backend/api/ai_features.py:159-162 | a non-empty caller prompt becomes "Comparison prompt: ...\n"; otherwise the mode's template closes the prompt |
| Compare.PaperParts | backend/api/ai_features.py:146-148 | one part per paper, numbered from 1, in order |
| Compare.CompareTextShape | backend/api/ai_features.py:146-162 | the prompt always ends with the caller's prompt or the mode template, starts with the first paper's part when there is one, and is that tail alone with no papers |
| Compare.BuildCompareText | backend/api/ai_features.py:146-162 | the loop builds the parts joined by "\n---\n", as `CompareText` describes |
| Compare.SummarySource | backend/api/ai_features.py:94-100 | the text summarised is the abstract when set; it is empty iff the document is missing or has none of abstract, summary, description and title |
| Compare.IndexSummaryShort | backend/api/ai_features.py:100-101 | a paper without text is summarised as "", and a text shorter than `min_length` words is its own summary |
| Compare.SummarizePapers | backend/api/ai_features.py:89-104 | one summary per requested id, in order, each the summary of that id's index text with the request's lengths |
| Compare.Summaries | backend/api/ai_features.py:350-353 | one summary per compared paper, in order, of its abstract with lengths 150 and 40 |
| Compare.Papers | backend/api/ai_features.py:118-143 | one gathered paper per requested id, in order |
| Compare.EmbeddingTexts | backend/api/ai_features.py:165 | each paper is embedded by its title, a line break and its abstract |
| Compare.RefSets | backend/api/ai_features.py:180-197 | one reference set per paper, in order |
| Compare.KeywordSets | backend/api/ai_features.py:199-200 | one keyword set per paper, in order |
| Compare.Grid | backend/api/ai_features.py:170-227 | the n x n list of lists whose entry (i, j) is the given score |
| Compare.Nodes | backend/api/ai_features.py:264-266 | one evidence node per paper, with its id and title |
| Compare.OutcomeFails | backend/api/ai_features.py:166-200 | the endpoint fails exactly when `cosine_sim` raises on two paper embeddings (both non-empty, of different lengths, with a non-zero norm product) or some paper has neither abstract nor title (so `extract_keywords` gets None) |
| Compare.GridsSquare | backend/api/ai_features.py:170-227 | symmetric scores with 1.0 on the diagonal and overlaps in [0, 1] give three square matrices with those properties |
| Compare.AssembleMetrics | backend/api/ai_features.py:170-227 | an assembled response's three matrices are n x n, symmetric, 1.0 on the diagonal, with both overlaps in [0, 1] |
| Compare.OutcomeMetrics | backend/api/ai_features.py:350-366 | a response has one summary and one node per requested paper, in order and with its id, and those matrix properties |
| Compare.AssembleEdges | backend/api/ai_features.py:319-345 | an assembled graph has edges whenever two or more papers are compared |
| Compare.OutcomeAssembled | backend/api/ai_features.py:116-410 | a successful response is the assembly of the papers' reference and keyword sets |
| Compare.OutcomeGraph | backend/api/ai_features.py:268-366 | the comparison summarises the prompt; the graph is the citation graph of the papers, or the semantic fallback, and is non-empty for two or more papers |
| Compare.OutcomePoints | backend/api/ai_features.py:378-408 | the points are the comparison's sentences in order, each support reaching the 0.45 threshold with at most three example references |
| Compare.Embed | backend/services/ai_features.py:95-109 | one `embed_texts` call returns `Embedded` and leaves the embedder loaded iff it was, or texts were given and loading succeeded |
| Compare.BuildGraph | backend/api/ai_features.py:268-345 | the evidence loops produce the citation edges, or the semantic fallback read from the similarity matrix when there are none |
| Compare.RowsOf | backend/api/ai_features.py:170-227 | a filled matrix read row by row is the `Grid` of its scores |
| Compare.ReadRefs | backend/api/ai_features.py:180-197 | the loop yields every paper's normalised reference set, in paper order |
| Compare.ReadKeywords | backend/api/ai_features.py:199-200 | the loop yields every paper's top-20 keyword set, in paper order, and fails exactly when some paper has neither abstract nor title |
| Compare.ReadSets | backend/api/ai_features.py:180-200 | all reference and keyword sets in paper order, and a failure exactly when some paper has no text for keywords |
| Compare.EmbeddingTextsOf | backend/api/ai_features.py:165 | the comprehension yields `EmbeddingTexts` |
| Compare.SummarizeAll | backend/api/ai_features.py:350-353 | the loop yields `Summaries` |
| Compare.Respond | backend/api/ai_features.py:203-410 | with the embeddings, matrices and sets known, the response is the assembly; the sentences are embedded only when there are any, which may load the embedder |
| Compare.ComparePapers | backend/api/ai_features.py:115-410 | `compare_papers` returns exactly `Outcome` for the embeddings it computed: None when it raises, the assembled response otherwise; the embedder ends up loaded iff it was, or a load attempt on a non-empty input succeeded |
| Sentences.SpaceRun | backend/api/ai_features.py:374 | the `\s+` run starting at a position stays in the text and is all whitespace |
| Sentences.SepAt | backend/api/ai_features.py:374 | a separator matches at a position iff it holds a line feed or carriage return, or whitespace right after '.', '?' or '!' |
| Sentences.SplitSentences | backend/api/ai_features.py:370-372 | an empty comparison gives no sentences |
| Sentences.FragmentsUnsplit | backend/api/ai_features.py:374 | no fragment of `re.split` holds a split point |
| Sentences.UnsplitBetween | backend/api/ai_features.py:374 | the text between two separators holds no split point |
| Sentences.UnsplitSlice | backend/api/ai_features.py:375 | a slice of a fragment without split points has none either |
| Sentences.StripUnsplit | backend/api/ai_features.py:375 | trimming a fragment keeps it free of split points |
| Sentences.KeepLongUnsplit | backend/api/ai_features.py:375 | the filter keeps only trimmed fragments longer than 20 characters |
| Sentences.KeepLongUnfold | backend/api/ai_features.py:375 | the comprehension keeps the first fragment, trimmed, only when it is longer than 20 characters after trimming |
| Sentences.CleanConcat | backend/api/ai_features.py:375 | clean sentences stay clean when lists of them are joined |
| Sentences.SentencesUnsplit | backend/api/ai_features.py:370-376 | every sentence is trimmed, longer than 20 characters, and holds no line break and no '.', '?' or '!' followed by whitespace |
| Sentences.OneSentence | backend/api/ai_features.py:370-376 | a text without split points is one sentence (itself, trimmed) when that is longer than 20 characters, and none otherwise |
| Sentences.NoSeparators | backend/api/ai_features.py:374 | `re.split` leaves a text without split points whole |
| Sentences.Score | backend/api/ai_features.py:386-393 | the score is 0.0 when the sentence has no embedding or the paper has none |
| Sentences.Examples | backend/api/ai_features.py:402-404 | one example per listed reference, labelled by the title, else the id, of its metadata |
| Sentences.SupportsSpec | backend/api/ai_features.py:387-406 | a paper supports a sentence iff its score reaches 0.45; each support carries that score and at most three example references |
| Sentences.NoEmbeddingNoSupport | backend/api/ai_features.py:386-395 | a sentence without an embedding has no support |
| Sentences.SentenceEmbedding | backend/api/ai_features.py:386 | a sentence has an embedding exactly when the embedder returned one at its index |
| Sentences.Points | backend/api/ai_features.py:384-408 | one point per sentence, in order, with the supports of all papers in paper order |
| Sentences.PointTexts | backend/api/ai_features.py:408 | the texts of the points in order |
| Sentences.PointsSupports | backend/api/ai_features.py:378-408 | the points are exactly the sentences in order, and every support reaches the threshold with at most three examples |
| Sentences.CollectSupports | backend/api/ai_features.py:385-406 | the loop over the papers yields exactly `Supports` for the sentence |
| Sentences.CollectPoints | backend/api/ai_features.py:378-408 | the loop over the sentences yields exactly `Points` |
| Springer.AuthorsRaw | backend/services/springer_ingest.py:56 | the raw authors are the first truthy of creators, creator and authors, or none |
| Springer.CreatorName | backend/services/springer_ingest.py:59-65 | a creator's name is `creator`, `name` or `fullName`, else "given family" when both are set; a nameless entry yields nothing, and no name is empty |
| Springer.ListAuthors | backend/services/springer_ingest.py:58-65 | the names of a creators list in order, nameless entries dropped, none empty |
| Springer.ParseAuthorList | backend/services/springer_ingest.py:58-65 | the loop yields exactly `ListAuthors` |
| Springer.Authors | backend/services/springer_ingest.py:56-67 | every author name of a record is non-empty, from a list or from a comma-separated string |
| Springer.Published | backend/services/springer_ingest.py:70-73 | the first truthy of the four date keys, kept only when it is a string; none when all are unset |
| Springer.Url | backend/services/springer_ingest.py:76-87 | a string url is kept; a missing key, an empty list or any other value gives none |
| Springer.FallbackId | backend/services/springer_ingest.py:93 | the generated id starts with "springer-" and ends with "-" and the count of papers taken before it |
| Springer.PaperId | backend/services/springer_ingest.py:90-93 | the id is the DOI (doi, identifier or ids), else the ISBN, else the print identifier, else the generated id |
| Springer.ToPaper | backend/services/springer_ingest.py:53-101 | one record maps to exactly the paper `MapRecord` describes |
| Springer.Batch | backend/services/springer_ingest.py:49 | each record of a page is tagged with the page's start |
| Springer.MapPage | backend/services/springer_ingest.py:49-104 | the papers of a page are its records mapped in order, numbered on from the count taken so far |
| Springer.Crawl | backend/services/springer_ingest.py:30-110 | the crawl never takes more than `max_results` records in total |
| Springer.PapersOf | backend/services/springer_ingest.py:92-103 | one paper per taken record |
| Springer.MapPageSnoc | backend/services/springer_ingest.py:103-104 | mapping one more record appends its paper, numbered by the count before it |
| Springer.PapersOfAppend | backend/services/springer_ingest.py:49-104 | the papers of a new page follow those taken before, numbered on |
| Springer.TakePage | backend/services/springer_ingest.py:49-104 | the record loop appends the papers of the first `max_results - fetched` records and counts them |
| Springer.Crawler | backend/services/springer_ingest.py:24-113 | the paging loop returns the papers of the whole crawl and sends exactly its requests |
| Springer.FetchSpringerPapers | backend/services/springer_ingest.py:11-113 | without a key (argument or environment) it fails before any request; otherwise it requests pages of size `min(page_size, 100)` from start 1 and returns the crawl's papers |
| Springer.EndCrawl | backend/services/springer_ingest.py:30 | reaching `max_results` ends the crawl with what was taken |
| Springer.FinishCrawl | backend/services/springer_ingest.py:37-47 | a failed request or an empty page ends the crawl after that request |
| Springer.CrawlUnfold | backend/services/springer_ingest.py:45-110 | a non-empty page contributes its records, and the crawl goes on from `start + page_size` only after a full page |
| Springer.ShortPage | backend/services/springer_ingest.py:107-110 | a page shorter than the page size ends the crawl after its records |
| Springer.NextPage | backend/services/springer_ingest.py:106-107 | a full page moves the crawl on to the next start with its records taken |
| Springer.CrawlStep | backend/services/springer_ingest.py:31-110 | one pass of the loop either ends with the papers and requests of the whole crawl, or takes at least one paper and keeps the loop invariant |
| Springer.PageStep | backend/services/springer_ingest.py:49-110 | after a non-empty page the loop ends with the whole crawl's papers and requests when the page is short, and otherwise goes on from `start + page_size` with the invariant kept |
| Springer.CrawlFull | backend/services/springer_ingest.py:49-107 | after a full page the crawl is the page's records followed by the crawl from `start + page_size` |
| Springer.RequestsFull | backend/services/springer_ingest.py:31-107 | after a full page the requests are this page's request followed by those from `start + page_size` |
| Springer.FetchedBounded | backend/services/springer_ingest.py:30-51 | at most `max_results` papers are returned |
| Springer.PageStartNext | backend/services/springer_ingest.py:107 | the starts advance by the page size |
| Springer.RequestStarts | backend/services/springer_ingest.py:31-107 | the k-th request asks for a page of size `p` at start `1 + k p` with the same query and key |
| Springer.OnlyFullPagesContinue | backend/services/springer_ingest.py:106-110 | every request but the last got a full page: the loop only goes on after one |
| Springer.PageSizeCapped | backend/services/springer_ingest.py:28 | no request asks for more than 100 records |
| Springer.NatToStringInjective | backend/services/springer_ingest.py:93 | distinct counters print differently |
| Springer.AfterLastDashOf | backend/services/springer_ingest.py:93 | the text after the last '-' of a generated id is its counter |
| Springer.FallbackIdsDistinct | backend/services/springer_ingest.py:93 | two generated ids with different counters differ, whatever the records' ids and starts |
| Springer.FallbackIdsUnique | backend/services/springer_ingest.py:92-104 | papers of one ingestion that get generated ids never share one |
| Py.Take | backend/services/search.py:143 | Python's `s[:n]` is a prefix of `s`, of length `min(n, len)` for a non-negative `n` and `max(0, len + n)` for a negative one |
| Py.Strip | backend/api/graph.py:50-51 | `strip()` returns a trimmed string no longer than its input, and leaves a trimmed string unchanged |
| Py.StripLower | backend/services/openalex.py:15-16 | stripping and lower-casing commute |
| Py.Lower | backend/services/citations.py:250 | `lower()` maps each character, keeping the length |
| Py.LowerIdempotent | backend/services/citations.py:250 | lower-casing twice is lower-casing once |
| Py.WordsAreWords | backend/services/citations.py:68 | every piece of `split()` is non-empty and free of whitespace |
| Py.WordsLower | backend/services/novelty.py:45 | splitting a lower-cased text gives the lower-cased words |
| Py.WordsJoin | backend/services/citations.py:71 | words joined by single spaces split back into the same words |
| Py.JoinSplitOn | backend/services/springer_ingest.py:67 | joining the pieces of `split(sep)` with `sep` gives the text back |
| Py.SplitOnPiecesFree | backend/services/springer_ingest.py:67 | no piece of `split(sep)` contains `sep` |
| Py.StrippedPiecesMembers | backend/services/springer_ingest.py:67 | a name is kept iff it is non-empty and some piece strips to it |
| Py.CommaListClean | backend/services/springer_ingest.py:67 | every name of a comma-separated list is non-empty, trimmed and free of commas |
| Py.NatToString | backend/api/ai_features.py:329 | `str(n)` is a non-empty string of decimal digits, one digit exactly when `n < 10` |
| Seqs.Distinct | backend/services/novelty.py:47-49 | the key order of a dict filled from a sequence has no duplicates and holds only elements of that sequence |
| Seqs.InDistinct | backend/services/novelty.py:47-49 | every element of the sequence becomes a dict key, and nothing else does |
| Seqs.DistinctSnoc | backend/services/novelty.py:49 | assigning a new key appends it to the key order; assigning an existing key leaves the order unchanged |
| Seqs.TallyStep | backend/services/novelty.py:47-49 | one step of the frequency loop keeps the invariant that the dict keys are the distinct tokens seen so far in first-seen order and each value is that token's count |
| Seqs.CountPositive | backend/services/novelty.py:49 | a token has a positive count exactly when it occurs |
| Seqs.SortDescByFacts | backend/services/search.py:128-132 | `sorted(..., reverse=True)` returns a permutation of its input, ordered by non-increasing key, that keeps the input order among equal keys (stability) |
| Seqs.SortDescByLength | backend/services/search.py:128-132 | sorting keeps the number of items |
| Seqs.InsertDescSorted | backend/services/search.py:128-132 | inserting into a list in descending key order keeps it in descending key order |
| Seqs.InsertDescMultiset | backend/services/search.py:128-132 | insertion adds exactly the one item |
| Seqs.InsertDescWithKey | backend/services/search.py:128-132 | insertion puts the new item after the items with an equal key, which is what makes the sort stable |
| Seqs.PermutationKeepsElements | backend/services/search.py:128-132 | a sorted result holds exactly the items of its input |
| Seqs.PermutationNoDuplicates | backend/services/search.py:128-132 | sorting duplicate-free items gives duplicate-free items |

## Left out

- Elasticsearch, the OpenAlex and Springer HTTP APIs, the arXiv client, the FAISS index, SentenceTransformer and the transformers pipelines are foreign code. Each is a parameter standing for its answer. Their internals and failure timing are not modelled.
- `index_papers_to_elasticsearch` (backend/services/springer_ingest.py:116-131) only writes to the index. It is I/O and is not part of this model.
- backend/services/arxiv_ingest.py wraps the arXiv library and the index, backend/api/citations.py returns a hard-coded empty list, and backend/api/recommendations.py only forwards to the service. They are not part of this model.
- FastAPI routing, pydantic parsing and the HTTPException plumbing are left out. The search endpoint and the two graph endpoints answer status 500 when an index search raises, and `compare_papers` fails with `None`. The 500 branch of `score_novelty` (backend/api/novelty.py:24-25) is not modelled, because the modelled scorer catches every failure it can meet. The four endpoints at backend/api/ai_features.py:36-80 only forward to the AI service, whose modelled operations do not fail on their inputs, so they and their 500 branches are not modelled separately. The text of error messages is not modelled.
- The module-level singletons (`get_ai_service`, `novelty_service`, `search_service`) are left out, and so are the hard-coded credentials of the index client. Whether a service started is a boolean parameter where the code tests it.
- The `print` calls that log progress and failures have no effect on any result, so they are left out.
- Numbers are reals, not IEEE doubles. Rounding error, `round(..., 4)`, the `{score:.3f}` label text and the `float()` casts are not modelled.
- `math.log2` is a parameter. The model assumes only that it is positive from 2 on, so entropy values are stated as formulas rather than computed.
- AiService.CosineSim: does not state that a cosine lies in [-1, 1]. That needs the Cauchy-Schwarz inequality over reals, which the solver's arithmetic does not close. Symmetry and self-similarity are proved instead.
- Novelty.Cosine: does not state the [-1, 1] bound either, for the same reason.
- Python's set iteration order behind `list(shared)[:10]` and `list(refs)[:3]` depends on hashing. It is a parameter that lists each set exactly once in some order.
- The sentence-splitting regular expression is stated as the rule it implements. No regular-expression engine is modelled.
- Whitespace, case folding and `str.split()` follow ASCII only. Python uses the Unicode tables.
- The search endpoint computes `offset = (page - 1) * size` and never uses it. The model has no such value.
- Concurrency does not arise: every operation is request-scoped and sequential.
- Compare.ReadSets: reads all keyword sets before all reference sets, where the source interleaves the two per paper. Both reads go to oracles without side effects, so the result and the failure condition are the same.
