/**
 * The paper-comparison endpoint (`compare_papers`) and the per-paper summary
 * endpoint (`summarize_papers`).
 *
 * A comparison gathers the papers, builds the prompt, embeds the papers, fills
 * the three metric matrices, reads the reference and keyword sets, assembles
 * the evidence graph, summarises the papers and the comparison, and maps the
 * sentences of the comparison to the papers that support them. `Outcome` is
 * the response as a function of the inputs and of what the embedder returned;
 * `ComparePapers` is the step-by-step computation proved equal to it. A
 * request that makes the endpoint raise (an HTTP 500) has outcome None.
 */
module Compare {
  import opened Py
  import opened PaperLookup
  import OpenAlex
  import AiService
  import Metrics
  import Evidence
  import Sentences
  import Seqs

  // ---------------------------------------------------------------------------
  // Requests, responses and the external services

  /** `CompareRequest`; its defaults are no prompt, a maximum length of 300, a
      minimum length of 50 and the mode "full". */
  datatype CompareRequest = CompareRequest(paperIds: seq<string>, prompt: Option<string>,
                                           maxLength: int, minLength: int, compareMode: Option<string>)

  datatype PaperSummary = PaperSummary(paperId: string, summary: string)

  /** A node of the evidence graph: a compared paper's id and title (its
      authors are always [] and its year None). */
  datatype Node = Node(id: string, title: Option<string>)

  datatype Response = Response(papers: seq<PaperSummary>, comparison: string,
                               embeddingSimilarity: seq<seq<real>>, citationOverlap: seq<seq<real>>,
                               keywordOverlap: seq<seq<real>>, nodes: seq<Node>,
                               edges: seq<Evidence.Edge>, points: seq<Sentences.Point>)

  /** The services the endpoint consults: the index, OpenAlex resolution, the
      summariser (None when it raises), numpy's vector norm and the iteration
      order of Python sets. */
  datatype Services = Services(es: string -> EsGet, resolve: string -> Option<OpenAlex.Work>,
                               summarizer: (string, int, int) -> Option<string>,
                               norm: seq<real> -> real, order: set<string> -> seq<string>)

  /** The sentence embedder returns one vector per text. */
  ghost predicate Encodes(encode: seq<string> -> seq<seq<real>>)
  {
    forall ts :: |encode(ts)| == |ts|
  }

  /** What `embed_texts` returns, given whether the embedder was loaded and
      whether loading it now succeeds. */
  function Embedded(texts: seq<string>, loaded: bool, loadSucceeds: bool,
                    encode: seq<string> -> seq<seq<real>>, dim: nat): (r: seq<seq<real>>)
    ensures texts == [] ==> r == []
    ensures Encodes(encode) ==> |r| == |texts|
    ensures !loaded && !loadSucceeds ==> forall k :: 0 <= k < |r| ==> r[k] == AiService.Zeros(dim)
  {
    if texts == [] then []
    else if loaded || loadSucceeds then encode(texts)
    else seq(|texts|, _ => AiService.Zeros(dim))
  }

  // ---------------------------------------------------------------------------
  // The prompt

  const MethodsPrompt: string := "Compare the methodologies used in these papers."
  const ResultsPrompt: string := "Compare the key findings and accuracy metrics."
  const DatasetsPrompt: string := "Focus on the datasets and experimental setup."
  const NoveltyPrompt: string := "Identify what is novel in each paper compared to the others."
  const FullPrompt: string := "Please summarize the main differences and similarities between these papers, focusing on methods, data, results, and conclusions."

  /** The template of a comparison mode; an unset, empty or unknown mode gets
      the "full" template. */
  function ModePrompt(mode: Option<string>): string
  {
    var key := if Truthy(mode) then mode.value else "full";
    if key == "methods" then MethodsPrompt
    else if key == "results" then ResultsPrompt
    else if key == "datasets" then DatasetsPrompt
    else if key == "novelty" then NoveltyPrompt
    else FullPrompt
  }

  /** The "full" template is used exactly when the mode is not one of the four
      named ones. */
  lemma ModePromptFull(mode: Option<string>)
    ensures ModePrompt(mode) == FullPrompt <==>
              !(Truthy(mode) && mode.value in {"methods", "results", "datasets", "novelty"})
  {
  }

  /** The last part of the prompt: the caller's prompt when it is non-empty,
      else the mode template. */
  function PromptTail(req: CompareRequest): (t: string)
    ensures Truthy(req.prompt) ==> t == "Comparison prompt: " + req.prompt.value + "\n"
    ensures !Truthy(req.prompt) ==> t == ModePrompt(req.compareMode)
  {
    if Truthy(req.prompt) then "Comparison prompt: " + req.prompt.value + "\n"
    else ModePrompt(req.compareMode)
  }

  /** The part of the prompt for the paper numbered `i` (from 1); a missing
      title reads "None". */
  function PaperPart(i: nat, p: Paper): string
  {
    "Paper " + NatToString(i) + ": " + Str(p.title) + "\nAbstract: " + p.abstractText + "\n"
  }

  function PaperParts(papers: seq<Paper>): (parts: seq<string>)
    ensures |parts| == |papers| && forall k :: 0 <= k < |papers| ==> parts[k] == PaperPart(k + 1, papers[k])
  {
    seq(|papers|, k requires 0 <= k < |papers| => PaperPart(k + 1, papers[k]))
  }

  /** The text given to the summariser: the paper parts and the tail, joined
      by "\n---\n". */
  function CompareText(papers: seq<Paper>, req: CompareRequest): string
  {
    Join("\n---\n", PaperParts(papers) + [PromptTail(req)])
  }

  /** The prompt opens with the first paper and always ends with the caller's
      prompt or the mode template; with no papers it is that tail alone. */
  lemma CompareTextShape(papers: seq<Paper>, req: CompareRequest)
    ensures EndsWith(CompareText(papers, req), PromptTail(req))
    ensures papers == [] ==> CompareText(papers, req) == PromptTail(req)
    ensures papers != [] ==> StartsWith(CompareText(papers, req), PaperPart(1, papers[0]) + "\n---\n")
  {
    var parts := PaperParts(papers);
    JoinSnoc("\n---\n", parts, PromptTail(req));
    if papers != [] {
      var all := parts + [PromptTail(req)];
      assert all[0] == PaperPart(1, papers[0]);
      assert Join("\n---\n", all) == all[0] + "\n---\n" + Join("\n---\n", all[1..]);
    }
  }

  /** The loop that builds the prompt parts. */
  method BuildCompareText(papers: seq<Paper>, req: CompareRequest) returns (text: string)
    ensures text == CompareText(papers, req)
  {
    var parts: seq<string> := [];
    for i := 0 to |papers|
      invariant parts == PaperParts(papers[..i])
    {
      parts := parts + [PaperPart(i + 1, papers[i])];
    }
    assert papers[..|papers|] == papers;
    if Truthy(req.prompt) {
      parts := parts + ["Comparison prompt: " + req.prompt.value + "\n"];
    } else {
      parts := parts + [ModePrompt(req.compareMode)];
    }
    text := Join("\n---\n", parts);
  }

  // ---------------------------------------------------------------------------
  // Summaries

  /** `summarize_papers`: the text of an index document is its abstract, else
      its summary, else its description, else its title, else ''. */
  function SummarySource(src: Option<Doc>): (t: string)
    ensures src.Some? && Truthy(src.value.abstractText) ==> t == src.value.abstractText.value
    ensures t == "" <==>
              src.None? || !(Truthy(src.value.abstractText) || Truthy(src.value.summary)
                             || Truthy(src.value.description) || Truthy(src.value.title))
  {
    if src.None? then ""
    else OrEmpty(Or(Or(Or(src.value.abstractText, src.value.summary), src.value.description), src.value.title))
  }

  function IndexSummary(pid: string, maxLength: int, minLength: int, s: Services): PaperSummary
  {
    PaperSummary(pid, AiService.GenerateSummary(SummarySource(SourceOf(s.es(pid))), maxLength, minLength, s.summarizer))
  }

  /** A paper the index has no text for is summarised as '' (the summariser is
      never called on it); a text shorter than `min_length` words is its own
      summary. */
  lemma IndexSummaryShort(pid: string, maxLength: int, minLength: int, s: Services)
    ensures SummarySource(SourceOf(s.es(pid))) == "" && minLength > 0 ==>
              IndexSummary(pid, maxLength, minLength, s).summary == ""
    ensures |Words(SummarySource(SourceOf(s.es(pid))))| < minLength ==>
              IndexSummary(pid, maxLength, minLength, s).summary == SummarySource(SourceOf(s.es(pid)))
  {
    WordsOfBlank("");
  }

  /** The loop of `summarize_papers` (`PaperIdsRequest` defaults the lengths to
      200 and 40). */
  method SummarizePapers(paperIds: seq<string>, maxLength: int, minLength: int, s: Services)
    returns (summaries: seq<PaperSummary>)
    ensures |summaries| == |paperIds|
    ensures forall k :: 0 <= k < |paperIds| ==> summaries[k] == IndexSummary(paperIds[k], maxLength, minLength, s)
  {
    summaries := [];
    for i := 0 to |paperIds|
      invariant |summaries| == i
      invariant forall k :: 0 <= k < i ==> summaries[k] == IndexSummary(paperIds[k], maxLength, minLength, s)
    {
      var pid := paperIds[i];
      var src := SourceOf(s.es(pid));
      var text := SummarySource(src);
      var summary := AiService.GenerateSummary(text, maxLength, minLength, s.summarizer);
      summaries := summaries + [PaperSummary(pid, summary)];
    }
  }

  /** The per-paper summaries of a comparison: each abstract summarised with
      lengths 150 and 40. */
  function Summaries(papers: seq<Paper>, s: Services): (r: seq<PaperSummary>)
    ensures |r| == |papers|
    ensures forall k :: 0 <= k < |papers| ==>
              r[k].paperId == papers[k].id
              && r[k].summary == AiService.GenerateSummary(papers[k].abstractText, 150, 40, s.summarizer)
  {
    seq(|papers|, k requires 0 <= k < |papers| =>
          PaperSummary(papers[k].id, AiService.GenerateSummary(papers[k].abstractText, 150, 40, s.summarizer)))
  }

  // ---------------------------------------------------------------------------
  // The pieces of a comparison

  function Papers(ids: seq<string>, s: Services): (ps: seq<Paper>)
    ensures |ps| == |ids| && forall k :: 0 <= k < |ids| ==> ps[k] == PaperFor(ids[k], s.es, s.resolve)
  {
    seq(|ids|, k requires 0 <= k < |ids| => PaperFor(ids[k], s.es, s.resolve))
  }

  /** The text a paper is embedded by: its title ("None" when missing), a line
      break and its abstract. */
  function EmbeddingText(p: Paper): string
  {
    Str(p.title) + "\n" + p.abstractText
  }

  function EmbeddingTexts(papers: seq<Paper>): (ts: seq<string>)
    ensures |ts| == |papers| && forall k :: 0 <= k < |papers| ==> ts[k] == EmbeddingText(papers[k])
  {
    seq(|papers|, k requires 0 <= k < |papers| => EmbeddingText(papers[k]))
  }

  function RefSets(papers: seq<Paper>, s: Services): (refs: seq<set<string>>)
    ensures |refs| == |papers| && forall k :: 0 <= k < |papers| ==> refs[k] == RefSet(papers[k], s.es)
  {
    seq(|papers|, k requires 0 <= k < |papers| => RefSet(papers[k], s.es))
  }

  const KeywordCount: int := 20

  /** Every paper has a text to draw keywords from. */
  predicate KeywordReady(papers: seq<Paper>)
  {
    forall k :: 0 <= k < |papers| ==> KeywordText(papers[k]).Some?
  }

  function KeywordSet(text: string): set<string>
  {
    set w | w in AiService.Keywords(text, KeywordCount)
  }

  /** The keyword set of a paper; a paper without text for it (which makes
      the endpoint fail) has none. */
  function KeywordSetOf(p: Paper): set<string>
  {
    if KeywordText(p).Some? then KeywordSet(KeywordText(p).value) else {}
  }

  function KeywordSets(papers: seq<Paper>): (kws: seq<set<string>>)
    ensures |kws| == |papers| && forall k :: 0 <= k < |papers| ==> kws[k] == KeywordSetOf(papers[k])
  {
    seq(|papers|, k requires 0 <= k < |papers| => KeywordSetOf(papers[k]))
  }

  function MetaOf(s: Services): string -> Meta
  {
    rid => RefMeta(rid, s.es, s.resolve)
  }

  /** The n x n matrix whose entry (i, j) is f(i, j). */
  function Grid(n: nat, f: (nat, nat) -> real): (g: seq<seq<real>>)
    ensures |g| == n && forall i :: 0 <= i < n ==> |g[i]| == n && forall j :: 0 <= j < n ==> g[i][j] == f(i, j)
  {
    seq(n, i requires 0 <= i < n => seq(n, j requires 0 <= j < n => f(i, j)))
  }

  function EmbeddingScore(embs: seq<seq<real>>, norm: seq<real> -> real): (nat, nat) -> real
  {
    (i: nat, j: nat) =>
      if i < |embs| && j < |embs| && Metrics.AllComparable(embs, norm) then Metrics.EmbeddingEntry(embs, norm, i, j) else 0.0
  }

  function CitationScore(refs: seq<set<string>>): (nat, nat) -> real
  {
    (i: nat, j: nat) => if i < |refs| && j < |refs| then Metrics.CitationEntry(refs, i, j) else 0.0
  }

  function KeywordScore(kws: seq<set<string>>): (nat, nat) -> real
  {
    (i: nat, j: nat) => if i < |kws| && j < |kws| then Metrics.KeywordEntry(kws, i, j) else 0.0
  }

  function Nodes(papers: seq<Paper>): (ns: seq<Node>)
    ensures |ns| == |papers| && forall k :: 0 <= k < |papers| ==> ns[k] == Node(papers[k].id, papers[k].title)
  {
    seq(|papers|, k requires 0 <= k < |papers| => Node(papers[k].id, papers[k].title))
  }

  // ---------------------------------------------------------------------------
  // The whole comparison

  /** The response assembled from the papers, their embeddings, reference
      sets and keyword sets, and the sentence embeddings. */
  function Assemble(req: CompareRequest, s: Services, papers: seq<Paper>, embs: seq<seq<real>>,
                    refs: seq<set<string>>, kws: seq<set<string>>, sentEmbs: seq<seq<real>>): Response
    requires |papers| == |req.paperIds| && |refs| == |papers| && |kws| == |papers|
  {
    var n := |papers|;
    var meta := MetaOf(s);
    var comparison := AiService.GenerateSummary(CompareText(papers, req), req.maxLength, req.minLength, s.summarizer);
    Response(
      Summaries(papers, s), comparison,
      Grid(n, EmbeddingScore(embs, s.norm)), Grid(n, CitationScore(refs)), Grid(n, KeywordScore(kws)),
      Nodes(papers),
      Evidence.GraphEdges(req.paperIds, refs, meta, s.order, EmbeddingScore(embs, s.norm), kws),
      Sentences.Points(Sentences.SplitSentences(comparison), sentEmbs, embs, req.paperIds, refs, meta, s.order, s.norm))
  }

  /** The response of `compare_papers` for the paper embeddings `embs` and the
      sentence embeddings `sentEmbs`; None when the endpoint raises: numpy
      rejects two non-empty paper embeddings of different lengths whose norm
      product is non-zero, or a paper has neither
      abstract nor title and `extract_keywords(None)` fails. */
  function Outcome(req: CompareRequest, s: Services, embs: seq<seq<real>>, sentEmbs: seq<seq<real>>)
    : Option<Response>
    requires |embs| == |req.paperIds|
  {
    var papers := Papers(req.paperIds, s);
    if !Metrics.AllComparable(embs, s.norm) || !KeywordReady(papers) then None
    else Some(Assemble(req, s, papers, embs, RefSets(papers, s), KeywordSets(papers), sentEmbs))
  }

  /** The endpoint fails exactly when two paper embeddings cannot be compared
      or some paper has neither abstract nor title. */
  lemma OutcomeFails(req: CompareRequest, s: Services, embs: seq<seq<real>>, sentEmbs: seq<seq<real>>)
    requires |embs| == |req.paperIds|
    ensures Outcome(req, s, embs, sentEmbs).None? <==>
              !Metrics.AllComparable(embs, s.norm)
              || exists k :: 0 <= k < |req.paperIds| && KeywordText(PaperFor(req.paperIds[k], s.es, s.resolve)).None?
  {
    var papers := Papers(req.paperIds, s);
    if !KeywordReady(papers) {
      var k :| 0 <= k < |papers| && KeywordText(papers[k]).None?;
      assert papers[k] == PaperFor(req.paperIds[k], s.es, s.resolve);
    }
  }

  /** Three n x n matrices with 1.0 on the diagonal; the second and third lie
      in [0, 1]; all three are symmetric. */
  predicate SquareMetrics(emb: seq<seq<real>>, cit: seq<seq<real>>, kw: seq<seq<real>>, n: nat)
  {
    && |emb| == n && |cit| == n && |kw| == n
    && (forall i :: 0 <= i < n ==>
          |emb[i]| == n && |cit[i]| == n && |kw[i]| == n
          && emb[i][i] == 1.0 && cit[i][i] == 1.0 && kw[i][i] == 1.0)
    && (forall i, j :: 0 <= i < n && 0 <= j < n ==>
          && 0.0 <= cit[i][j] <= 1.0 && 0.0 <= kw[i][j] <= 1.0
          && emb[i][j] == emb[j][i] && cit[i][j] == cit[j][i] && kw[i][j] == kw[j][i])
  }

  lemma GridsSquare(n: nat, e: (nat, nat) -> real, c: (nat, nat) -> real, k: (nat, nat) -> real)
    requires forall i: nat, j: nat :: i < n && j < n ==>
               && e(i, j) == e(j, i) && c(i, j) == c(j, i) && k(i, j) == k(j, i)
               && 0.0 <= c(i, j) <= 1.0 && 0.0 <= k(i, j) <= 1.0
    requires forall i: nat :: i < n ==> e(i, i) == 1.0 && c(i, i) == 1.0 && k(i, i) == 1.0
    ensures SquareMetrics(Grid(n, e), Grid(n, c), Grid(n, k), n)
  {
  }

  lemma AssembleMetrics(req: CompareRequest, s: Services, papers: seq<Paper>, embs: seq<seq<real>>,
                        refs: seq<set<string>>, kws: seq<set<string>>, sentEmbs: seq<seq<real>>)
    requires |papers| == |req.paperIds| && |refs| == |papers| && |kws| == |papers| && |embs| == |papers|
    requires Metrics.AllComparable(embs, s.norm)
    ensures var r := Assemble(req, s, papers, embs, refs, kws, sentEmbs);
            SquareMetrics(r.embeddingSimilarity, r.citationOverlap, r.keywordOverlap, |papers|)
  {
    var n := |papers|;
    var e := EmbeddingScore(embs, s.norm);
    var c := CitationScore(refs);
    var k := KeywordScore(kws);
    forall i: nat, j: nat | i < n && j < n
      ensures e(i, j) == e(j, i) && c(i, j) == c(j, i) && k(i, j) == k(j, i)
      ensures 0.0 <= c(i, j) <= 1.0 && 0.0 <= k(i, j) <= 1.0
    {
      Metrics.EmbeddingSymmetric(embs, s.norm, i, j);
      Metrics.OverlapMatricesSymmetric(refs, kws, i, j);
    }
    GridsSquare(n, e, c, k);
  }

  /** A response lists one summary and one node per requested paper, in order,
      and its three metric matrices are n x n with 1.0 on the diagonal; the
      overlaps lie in [0, 1] and all three are symmetric. */
  lemma OutcomeMetrics(req: CompareRequest, s: Services, embs: seq<seq<real>>, sentEmbs: seq<seq<real>>)
    requires |embs| == |req.paperIds|
    requires Outcome(req, s, embs, sentEmbs).Some?
    ensures var r := Outcome(req, s, embs, sentEmbs).value;
            && |r.papers| == |req.paperIds| && |r.nodes| == |req.paperIds|
            && (forall k :: 0 <= k < |req.paperIds| ==>
                  r.papers[k].paperId == req.paperIds[k] && r.nodes[k].id == req.paperIds[k])
            && SquareMetrics(r.embeddingSimilarity, r.citationOverlap, r.keywordOverlap, |req.paperIds|)
  {
    var papers := Papers(req.paperIds, s);
    AssembleMetrics(req, s, papers, embs, RefSets(papers, s), KeywordSets(papers), sentEmbs);
  }

  /** The graph of an assembled response is non-empty for two or more papers. */
  lemma AssembleEdges(req: CompareRequest, s: Services, papers: seq<Paper>, embs: seq<seq<real>>,
                      refs: seq<set<string>>, kws: seq<set<string>>, sentEmbs: seq<seq<real>>)
    requires |papers| == |req.paperIds| && |refs| == |papers| && |kws| == |papers|
    ensures |req.paperIds| >= 2 ==> Assemble(req, s, papers, embs, refs, kws, sentEmbs).edges != []
  {
    Evidence.GraphEdgesSpec(req.paperIds, refs, MetaOf(s), s.order, EmbeddingScore(embs, s.norm), kws);
  }

  /** A response is the assembly of the papers' reference and keyword sets. */
  lemma OutcomeAssembled(req: CompareRequest, s: Services, embs: seq<seq<real>>, sentEmbs: seq<seq<real>>)
    requires |embs| == |req.paperIds|
    requires Outcome(req, s, embs, sentEmbs).Some?
    ensures KeywordReady(Papers(req.paperIds, s))
    ensures Outcome(req, s, embs, sentEmbs).value ==
              Assemble(req, s, Papers(req.paperIds, s), embs, RefSets(Papers(req.paperIds, s), s),
                       KeywordSets(Papers(req.paperIds, s)), sentEmbs)
  {
  }

  /** The comparison of a response summarises the prompt; its graph is the
      citation graph of the papers, or the semantic fallback when there is
      none, and is non-empty for two or more papers. */
  lemma OutcomeGraph(req: CompareRequest, s: Services, embs: seq<seq<real>>, sentEmbs: seq<seq<real>>)
    requires |embs| == |req.paperIds|
    requires Outcome(req, s, embs, sentEmbs).Some?
    ensures var r := Outcome(req, s, embs, sentEmbs).value;
            var papers := Papers(req.paperIds, s);
            && r.comparison == AiService.GenerateSummary(CompareText(papers, req), req.maxLength, req.minLength, s.summarizer)
            && r.edges == Evidence.GraphEdges(req.paperIds, RefSets(papers, s), MetaOf(s), s.order,
                                              EmbeddingScore(embs, s.norm), KeywordSets(papers))
            && (|req.paperIds| >= 2 ==> r.edges != [])
  {
    OutcomeAssembled(req, s, embs, sentEmbs);
    var papers := Papers(req.paperIds, s);
    AssembleEdges(req, s, papers, embs, RefSets(papers, s), KeywordSets(papers), sentEmbs);
  }

  /** Every sentence of the comparison is a point, in order, and each support
      reaches the 0.45 threshold with at most three example references. */
  lemma OutcomePoints(req: CompareRequest, s: Services, embs: seq<seq<real>>, sentEmbs: seq<seq<real>>)
    requires |embs| == |req.paperIds|
    requires Outcome(req, s, embs, sentEmbs).Some?
    ensures var r := Outcome(req, s, embs, sentEmbs).value;
            Sentences.PointTexts(r.points) == Sentences.SplitSentences(r.comparison) && Sentences.WellSupported(r.points)
  {
    OutcomeAssembled(req, s, embs, sentEmbs);
    var papers := Papers(req.paperIds, s);
    var refs := RefSets(papers, s);
    var kws := KeywordSets(papers);
    var r := Assemble(req, s, papers, embs, refs, kws, sentEmbs);
    var ss := Sentences.SplitSentences(r.comparison);
    var ps := Sentences.Points(ss, sentEmbs, embs, req.paperIds, refs, MetaOf(s), s.order, s.norm);
    assert r.points == ps;
    Sentences.PointsSupports(ss, sentEmbs, embs, req.paperIds, refs, MetaOf(s), s.order, s.norm);
  }

  // ---------------------------------------------------------------------------
  // The computation

  /** One call of `embed_texts` on the service. */
  method Embed(svc: AiService.AiFeatureService, texts: seq<string>, loadSucceeds: bool,
               encode: seq<string> -> seq<seq<real>>) returns (r: seq<seq<real>>)
    modifies svc
    ensures r == Embedded(texts, old(svc.embedderLoaded), loadSucceeds, encode, svc.vectorDimension)
    ensures svc.embedderLoaded == (if texts == [] then old(svc.embedderLoaded) else old(svc.embedderLoaded) || loadSucceeds)
  {
    r := svc.EmbedTexts(texts, loadSucceeds, encode);
    if texts != [] && !old(svc.embedderLoaded) && !loadSucceeds {
      assert r == seq(|texts|, _ => AiService.Zeros(svc.vectorDimension));
    }
  }

  /** The graph: the citation edges, or the semantic fallback read from the
      embedding matrix when there are none. */
  method BuildGraph(ids: seq<string>, refs: seq<set<string>>, meta: string -> Meta,
                    order: set<string> -> seq<string>, sim: array2<real>, ghost simOf: (nat, nat) -> real,
                    kws: seq<set<string>>) returns (edges: seq<Evidence.Edge>)
    requires |refs| == |ids| && |kws| == |ids| && sim.Length0 == |ids| && sim.Length1 == |ids|
    requires forall i, j :: 0 <= i < |ids| && 0 <= j < |ids| ==> sim[i, j] == simOf(i, j)
    ensures edges == Evidence.GraphEdges(ids, refs, meta, order, simOf, kws)
  {
    edges := Evidence.CollectCitationEdges(ids, refs, meta, order);
    if edges == [] {
      edges := Evidence.CollectSemanticEdges(ids, sim, simOf, kws);
    }
  }

  /** The rows of a square matrix as a list of lists, equal to `Grid`. */
  method RowsOf(m: array2<real>, ghost f: (nat, nat) -> real) returns (rows: seq<seq<real>>)
    requires m.Length0 == m.Length1
    requires forall i, j :: 0 <= i < m.Length0 && 0 <= j < m.Length1 ==> m[i, j] == f(i, j)
    ensures rows == Grid(m.Length0, f)
  {
    var n := m.Length0;
    rows := [];
    for i := 0 to n
      invariant |rows| == i
      invariant forall a :: 0 <= a < i ==> rows[a] == Grid(n, f)[a]
    {
      var row: seq<real> := [];
      for j := 0 to n
        invariant |row| == j && forall b :: 0 <= b < j ==> row[b] == f(i, b)
      {
        row := row + [m[i, j]];
      }
      rows := rows + [row];
    }
  }

  /** The reference sets, in paper order. */
  method ReadRefs(papers: seq<Paper>, s: Services) returns (refs: seq<set<string>>)
    ensures refs == RefSets(papers, s)
  {
    ghost var all := RefSets(papers, s);
    refs := [];
    for i := 0 to |papers|
      invariant refs == all[..i]
    {
      Seqs.PrefixSnoc(all, i);
      refs := refs + [RefSet(papers[i], s.es)];
    }
    assert all[..|papers|] == all;
  }

  /** The keyword sets, in paper order; None as soon as a paper has no text
      for `extract_keywords`. */
  method ReadKeywords(papers: seq<Paper>) returns (kws: Option<seq<set<string>>>)
    ensures kws.None? <==> !KeywordReady(papers)
    ensures kws.Some? ==> kws.value == KeywordSets(papers)
  {
    ghost var all := KeywordSets(papers);
    var acc: seq<set<string>> := [];
    for i := 0 to |papers|
      invariant acc == all[..i]
      invariant KeywordReady(papers[..i])
    {
      var text := KeywordText(papers[i]);
      if text.None? {
        assert !KeywordReady(papers) by {
          assert KeywordText(papers[i]).None?;
        }
        return None;
      }
      var words := AiService.ExtractKeywords(text.value, KeywordCount);
      Seqs.PrefixSnoc(all, i);
      acc := acc + [set w | w in words];
      assert papers[..i + 1] == papers[..i] + [papers[i]];
    }
    assert all[..|papers|] == all && papers[..|papers|] == papers;
    kws := Some(acc);
  }

  /** The reference and keyword sets, in paper order; None when a paper has no
      text for `extract_keywords`. */
  method ReadSets(papers: seq<Paper>, s: Services) returns (sets: Option<(seq<set<string>>, seq<set<string>>)>)
    ensures sets.None? <==> !KeywordReady(papers)
    ensures sets.Some? ==> sets.value.0 == RefSets(papers, s) && sets.value.1 == KeywordSets(papers)
  {
    var kws := ReadKeywords(papers);
    if kws.None? {
      return None;
    }
    var refs := ReadRefs(papers, s);
    sets := Some((refs, kws.value));
  }

  /** The texts the papers are embedded by. */
  method EmbeddingTextsOf(papers: seq<Paper>) returns (texts: seq<string>)
    ensures texts == EmbeddingTexts(papers)
  {
    texts := [];
    for i := 0 to |papers|
      invariant |texts| == i && forall k :: 0 <= k < i ==> texts[k] == EmbeddingText(papers[k])
    {
      texts := texts + [EmbeddingText(papers[i])];
    }
  }

  /** The loop producing the per-paper summaries of a comparison. */
  method SummarizeAll(papers: seq<Paper>, s: Services) returns (summaries: seq<PaperSummary>)
    ensures summaries == Summaries(papers, s)
  {
    summaries := [];
    for i := 0 to |papers|
      invariant |summaries| == i
      invariant forall k :: 0 <= k < i ==>
                  summaries[k] == PaperSummary(papers[k].id, AiService.GenerateSummary(papers[k].abstractText, 150, 40, s.summarizer))
    {
      var summary := AiService.GenerateSummary(papers[i].abstractText, 150, 40, s.summarizer);
      summaries := summaries + [PaperSummary(papers[i].id, summary)];
    }
  }

  /** The response once the embeddings, the metric matrices and the sets are
      known. */
  method Respond(req: CompareRequest, svc: AiService.AiFeatureService, s: Services, papers: seq<Paper>,
                 compareText: string, embs: seq<seq<real>>, sim: array2<real>,
                 refs: seq<set<string>>, kws: seq<set<string>>, secondLoad: bool,
                 encode: seq<string> -> seq<seq<real>>) returns (r: Response, sentEmbs: seq<seq<real>>)
    requires |papers| == |req.paperIds| && |refs| == |papers| && |kws| == |papers| && |embs| == |papers|
    requires forall k :: 0 <= k < |papers| ==> papers[k].id == req.paperIds[k]
    requires compareText == CompareText(papers, req)
    requires sim.Length0 == |papers| && sim.Length1 == |papers|
    requires forall i, j :: 0 <= i < |papers| && 0 <= j < |papers| ==> sim[i, j] == EmbeddingScore(embs, s.norm)(i, j)
    modifies svc
    ensures r == Assemble(req, s, papers, embs, refs, kws, sentEmbs)
    ensures sentEmbs == Embedded(Sentences.SplitSentences(r.comparison), old(svc.embedderLoaded), secondLoad, encode,
                                 svc.vectorDimension)
    ensures svc.embedderLoaded == (old(svc.embedderLoaded) || (r.points != [] && secondLoad))
  {
    var n := |papers|;
    var cit, kw := Metrics.OverlapMatrices(refs, kws);
    var meta := MetaOf(s);
    var edges := BuildGraph(req.paperIds, refs, meta, s.order, sim, EmbeddingScore(embs, s.norm), kws);
    var summaries := SummarizeAll(papers, s);
    var comparison := AiService.GenerateSummary(compareText, req.maxLength, req.minLength, s.summarizer);

    var embRows := RowsOf(sim, EmbeddingScore(embs, s.norm));
    var citRows := RowsOf(cit, CitationScore(refs));
    var kwRows := RowsOf(kw, KeywordScore(kws));

    var sentences := Sentences.SplitSentences(comparison);
    sentEmbs := [];
    if sentences != [] {
      sentEmbs := Embed(svc, sentences, secondLoad, encode);
    }
    var points := Sentences.CollectPoints(sentences, sentEmbs, embs, req.paperIds, refs, meta, s.order, s.norm);
    assert Nodes(papers) == seq(n, k requires 0 <= k < n => Node(papers[k].id, papers[k].title));
    r := Response(summaries, comparison, embRows, citRows, kwRows, Nodes(papers), edges, points);
  }

  /** `compare_papers`. The embedder's two load attempts (for the papers, then
      for the sentences) succeed or fail as `firstLoad` and `secondLoad` say. */
  method ComparePapers(req: CompareRequest, svc: AiService.AiFeatureService, s: Services,
                       firstLoad: bool, secondLoad: bool, encode: seq<string> -> seq<seq<real>>)
    returns (r: Option<Response>, embs: seq<seq<real>>, sentEmbs: seq<seq<real>>)
    requires Encodes(encode)
    modifies svc
    ensures embs == Embedded(EmbeddingTexts(Papers(req.paperIds, s)), old(svc.embedderLoaded), firstLoad, encode,
                             svc.vectorDimension)
    ensures |embs| == |req.paperIds| && r == Outcome(req, s, embs, sentEmbs)
    ensures r.Some? ==>
              sentEmbs == Embedded(Sentences.SplitSentences(r.value.comparison),
                                   old(svc.embedderLoaded) || (req.paperIds != [] && firstLoad),
                                   secondLoad, encode, svc.vectorDimension)
    ensures svc.embedderLoaded ==
              (old(svc.embedderLoaded) || (req.paperIds != [] && firstLoad)
               || (r.Some? && r.value.points != [] && secondLoad))
  {
    var papers := PaperLookup.GatherPapers(req.paperIds, s.es, s.resolve);
    assert papers == Papers(req.paperIds, s);
    var compareText := BuildCompareText(papers, req);
    var texts := EmbeddingTextsOf(papers);
    embs := Embed(svc, texts, firstLoad, encode);
    sentEmbs := [];

    var ok, sim := Metrics.EmbeddingMatrix(embs, s.norm);
    if !ok {
      r := None;
      return;
    }

    var sets := ReadSets(papers, s);
    if sets.None? {
      r := None;
      return;
    }
    var response;
    response, sentEmbs := Respond(req, svc, s, papers, compareText, embs, sim, sets.value.0, sets.value.1,
                                  secondLoad, encode);
    r := Some(response);
  }
}
