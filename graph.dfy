/**
 * The citation and similarity graph endpoints: node mapping with field
 * fallbacks, the fallback query for a paper without indexed citations, the
 * OpenAlex resolution order, and the star-shaped graph assembled with a
 * seen-set.
 *
 * Elasticsearch is an oracle `es` from a query to the hits' `_source`
 * records; the target's own record is `tgt`, None when it is missing or empty.
 */
module Graph {
  import opened Py
  import opened Seqs
  import OpenAlex

  /** The `_source` fields of an indexed paper that the graph endpoints read;
      an absent field is None. */
  datatype Source = Source(id: Option<string>, paperId: Option<string>, doi: Option<string>,
                           title: Option<string>, name: Option<string>, authors: Option<seq<string>>,
                           year: Option<string>, published: Option<string>,
                           url: Option<string>, pdfUrl: Option<string>, keywords: Option<seq<string>>)

  /** A node's year: text from the index or a number from OpenAlex. */
  datatype Year = YearText(text: string) | YearNumber(number: int)

  datatype Node = Node(id: string, title: string, authors: seq<Option<string>>, year: Option<Year>,
                       url: Option<string>)

  datatype Edge = Edge(source: string, target: string, relation: string)

  datatype GraphResponse = GraphResponse(nodes: seq<Node>, edges: seq<Edge>)

  /** What a graph endpoint answers: the graph, or the HTTP error it raises
      when an index search fails. */
  datatype GraphResult = Failed(status: nat) | Built(graph: GraphResponse)

  /** A should-clause of the fallback and similarity queries. */
  datatype MatchClause = MatchPhrase(field: string, text: string) | Match(field: string, text: string)

  /** The Elasticsearch queries of the graph endpoints: a term query on
      `references`, or a bool query needing one of its should-clauses. */
  datatype GraphQuery = ReferencesTerm(value: string, size: int) | ShouldQuery(should: seq<MatchClause>, size: int)

  /** The index's search: the hits of a query, or None when the search raises. */
  type GraphSearch = GraphQuery -> Option<seq<Source>>

  // ---------------------------------------------------------------------------
  // Nodes

  /** A node id: the first truthy of id, paper id and DOI, else the title as
      Python's `str` prints it. */
  function PaperId(src: Source): (pid: string)
    ensures Truthy(src.id) ==> pid == src.id.value
    ensures !Truthy(src.id) && Truthy(src.paperId) ==> pid == src.paperId.value
    ensures !Truthy(src.id) && !Truthy(src.paperId) && Truthy(src.doi) ==> pid == src.doi.value
    ensures !Truthy(src.id) && !Truthy(src.paperId) && !Truthy(src.doi) ==> pid == Str(src.title)
  {
    Str(Or(Or(Or(src.id, src.paperId), src.doi), src.title))
  }

  /** `x or None` on an optional string. */
  function OrNone(o: Option<string>): (r: Option<string>)
    ensures r == None || Truthy(r)
  {
    if Truthy(o) then o else None
  }

  /** `_node_from_source`: the id as above; the title falls back to `name` and
      then to the id; authors default to []; the year comes from `year` or
      `published`, the url from `url` or `pdf_url`. */
  function NodeFromSource(src: Source): (n: Node)
    ensures n.id == PaperId(src)
    ensures Truthy(src.title) ==> n.title == src.title.value
    ensures !Truthy(src.title) && Truthy(src.name) ==> n.title == src.name.value
    ensures !Truthy(src.title) && !Truthy(src.name) ==> n.title == n.id
    ensures src.authors.Some? ==> |n.authors| == |src.authors.value|
    ensures src.authors.None? ==> n.authors == []
    ensures n.year.Some? <==> Truthy(src.year) || Truthy(src.published)
    ensures n.url.Some? <==> Truthy(src.url) || Truthy(src.pdfUrl)
  {
    var pid := PaperId(src);
    var year := OrNone(Or(src.year, src.published));
    Node(pid,
         if Truthy(src.title) then src.title.value else if Truthy(src.name) then src.name.value else pid,
         if src.authors.Some? then seq(|src.authors.value|, k requires 0 <= k < |src.authors.value| =>
                                          Some(src.authors.value[k]))
         else [],
         if year.Some? then Some(YearText(year.value)) else None,
         OrNone(Or(src.url, src.pdfUrl)))
  }

  /** The first node: the target's own record, or a bare node named by the
      requested id when the target is not in the index. */
  function CenterNode(paperId: string, tgt: Option<Source>): (c: Node)
    ensures tgt.None? ==> c.id == paperId && c.title == paperId && c.authors == [] && c.year == None
    ensures tgt.Some? ==> c == NodeFromSource(tgt.value)
  {
    if tgt.Some? then NodeFromSource(tgt.value) else Node(paperId, paperId, [], None, None)
  }

  /** The node of a citing work found through OpenAlex. */
  function CitingNode(c: OpenAlex.Work): (n: Node)
    ensures Truthy(c.id) ==> n.id == c.id.value
    ensures !Truthy(c.id) && Truthy(c.doi) ==> n.id == c.doi.value
    ensures |n.authors| == |c.authorships|
    ensures n.year.Some? <==> c.publicationYear.Some?
  {
    var pid := Str(Or(Or(Or(c.id, c.doi), c.id), c.displayName));
    var title := Or(c.displayName, c.title);
    Node(pid,
         if Truthy(title) then title.value else pid,
         seq(|c.authorships|, k requires 0 <= k < |c.authorships| =>
               match c.authorships[k]
               case AuthorDict(author, _) => if author.Some? then author.value.displayName else None
               case AuthorValue(name) => Some(name)),
         if c.publicationYear.Some? then Some(YearNumber(c.publicationYear.value)) else None,
         if c.ids.Some? then c.ids.value else c.id)
  }

  function HitNodes(hits: seq<Source>): (ns: seq<Node>)
    ensures |ns| == |hits| && forall k :: 0 <= k < |hits| ==> ns[k] == NodeFromSource(hits[k])
  {
    seq(|hits|, k requires 0 <= k < |hits| => NodeFromSource(hits[k]))
  }

  function CitingNodes(works: seq<OpenAlex.Work>): (ns: seq<Node>)
    ensures |ns| == |works| && forall k :: 0 <= k < |works| ==> ns[k] == CitingNode(works[k])
  {
    seq(|works|, k requires 0 <= k < |works| => CitingNode(works[k]))
  }

  // ---------------------------------------------------------------------------
  // The star graph

  function Ids(nodes: seq<Node>): (ids: seq<string>)
    ensures |ids| == |nodes| && forall k :: 0 <= k < |nodes| ==> ids[k] == nodes[k].id
  {
    seq(|nodes|, k requires 0 <= k < |nodes| => nodes[k].id)
  }

  /** The nodes after the seen-set loop over `cands`: each candidate whose id
      is not yet present is appended. */
  function Extend(nodes: seq<Node>, cands: seq<Node>): (r: seq<Node>)
    ensures |nodes| <= |r| && r[..|nodes|] == nodes
  {
    if cands == [] then nodes
    else
      var prev := Extend(nodes, cands[..|cands| - 1]);
      var n := cands[|cands| - 1];
      if n.id in Ids(prev) then prev else prev + [n]
  }

  /** One edge from every node after the first to the first. */
  function StarEdges(nodes: seq<Node>, relation: string): (edges: seq<Edge>)
    requires |nodes| >= 1
    ensures |edges| == |nodes| - 1
    ensures forall k :: 0 <= k < |edges| ==> edges[k] == Edge(nodes[k + 1].id, nodes[0].id, relation)
  {
    seq(|nodes| - 1, k requires 0 <= k < |nodes| - 1 => Edge(nodes[k + 1].id, nodes[0].id, relation))
  }

  function IdSet(nodes: seq<Node>): set<string>
  {
    set k | 0 <= k < |nodes| :: nodes[k].id
  }

  lemma IdSetSnoc(nodes: seq<Node>, n: Node)
    ensures IdSet(nodes + [n]) == IdSet(nodes) + {n.id}
  {
    var a := nodes + [n];
    assert a[|nodes|].id == n.id;
    forall x | x in IdSet(nodes) ensures x in IdSet(a) {
      var k :| 0 <= k < |nodes| && nodes[k].id == x;
      assert a[k].id == x;
    }
  }

  lemma InIds(nodes: seq<Node>, x: string)
    ensures x in Ids(nodes) <==> x in IdSet(nodes)
  {
    if x in Ids(nodes) {
      var k :| 0 <= k < |nodes| && Ids(nodes)[k] == x;
    }
    if x in IdSet(nodes) {
      var k :| 0 <= k < |nodes| && nodes[k].id == x;
      assert Ids(nodes)[k] == x;
    }
  }

  /** The seen-set loop shared by both endpoints: a candidate whose id was seen
      is skipped; otherwise it is recorded, appended, and linked to the centre. */
  method AddNodes(nodes: seq<Node>, edges: seq<Edge>, seen: set<string>, cands: seq<Node>, relation: string)
    returns (nodes': seq<Node>, edges': seq<Edge>, seen': set<string>)
    requires |nodes| >= 1 && seen == IdSet(nodes) && edges == StarEdges(nodes, relation)
    ensures nodes' == Extend(nodes, cands)
    ensures edges' == StarEdges(nodes', relation) && seen' == IdSet(nodes')
  {
    nodes', edges', seen' := nodes, edges, seen;
    for i := 0 to |cands|
      invariant nodes' == Extend(nodes, cands[..i])
      invariant edges' == StarEdges(nodes', relation) && seen' == IdSet(nodes')
    {
      assert cands[..i + 1][..i] == cands[..i];
      var n := cands[i];
      InIds(nodes', n.id);
      if n.id !in seen' {
        IdSetSnoc(nodes', n);
        seen' := seen' + {n.id};
        nodes' := nodes' + [n];
        edges' := edges' + [Edge(n.id, nodes[0].id, relation)];
      }
    }
    assert cands[..|cands|] == cands;
  }

  /** The loop never lets two nodes share an id. */
  lemma {:induction false} ExtendDistinct(nodes: seq<Node>, cands: seq<Node>)
    requires NoDuplicates(Ids(nodes))
    ensures NoDuplicates(Ids(Extend(nodes, cands)))
  {
    if cands != [] {
      var prev := Extend(nodes, cands[..|cands| - 1]);
      ExtendDistinct(nodes, cands[..|cands| - 1]);
      var n := cands[|cands| - 1];
      if n.id !in Ids(prev) {
        assert Ids(prev + [n]) == Ids(prev) + [n.id];
      }
    }
  }

  /** Every candidate's id ends up in the graph, and every appended node is a
      candidate. */
  lemma {:induction false} ExtendCovers(nodes: seq<Node>, cands: seq<Node>)
    ensures forall n :: n in cands ==> n.id in Ids(Extend(nodes, cands))
    ensures forall k :: |nodes| <= k < |Extend(nodes, cands)| ==> Extend(nodes, cands)[k] in cands
  {
    if cands != [] {
      var init := cands[..|cands| - 1];
      var prev := Extend(nodes, init);
      ExtendCovers(nodes, init);
      var r := Extend(nodes, cands);
      assert prev == r[..|prev|];
      forall n | n in cands ensures n.id in Ids(r) {
        if n in init {
          var k :| 0 <= k < |prev| && Ids(prev)[k] == n.id;
          assert Ids(r)[k] == n.id;
        } else {
          assert n == cands[|cands| - 1];
          if n.id !in Ids(prev) {
            assert Ids(r)[|prev|] == n.id;
          }
        }
      }
      forall k | |nodes| <= k < |r| ensures r[k] in cands {
        if k < |prev| {
          assert r[k] == prev[k] && prev[k] in init;
        }
      }
    }
  }

  /** The shape both endpoints promise: the centre comes first, node ids are
      unique, and there is exactly one edge per other node, from it to the
      centre. */
  ghost predicate Star(g: GraphResponse, center: Node, relation: string)
  {
    && |g.nodes| >= 1 && g.nodes[0] == center
    && NoDuplicates(Ids(g.nodes))
    && |g.edges| == |g.nodes| - 1
    && (forall k :: 0 <= k < |g.edges| ==>
          g.edges[k] == Edge(g.nodes[k + 1].id, center.id, relation) && g.edges[k].source != center.id)
  }

  /** A graph built from the centre by seen-set loops has the star shape and
      holds every candidate's id. */
  lemma ExtendStar(center: Node, cands: seq<Node>, relation: string)
    ensures var nodes := Extend([center], cands);
            && Star(GraphResponse(nodes, StarEdges(nodes, relation)), center, relation)
            && (forall n :: n in cands ==> n.id in Ids(nodes))
            && (forall k :: 1 <= k < |nodes| ==> nodes[k] in cands)
  {
    var nodes := Extend([center], cands);
    ExtendDistinct([center], cands);
    ExtendCovers([center], cands);
    forall k | 1 <= k < |nodes| ensures nodes[k].id != center.id {
      assert Ids(nodes)[k] != Ids(nodes)[0];
    }
  }

  // ---------------------------------------------------------------------------
  // get_citations

  /** The query for papers whose `references` hold the id. */
  function ReferencesQuery(paperId: string, limit: int): GraphQuery
  {
    ReferencesTerm(paperId, limit)
  }

  /** A field of the target, trimmed; the empty string when unset. */
  function StrippedField(tgt: Option<Source>, field: Source -> Option<string>): string
  {
    if tgt.Some? && field(tgt.value).Some? then Strip(field(tgt.value).value) else ""
  }

  function TargetTitle(tgt: Option<Source>): string
  {
    StrippedField(tgt, (s: Source) => s.title)
  }

  function TargetUrl(tgt: Option<Source>): string
  {
    StrippedField(tgt, (s: Source) => s.url)
  }

  /** The should-clauses that a non-empty title and url contribute. */
  function TitleUrlClauses(title: string, url: string): (should: seq<MatchClause>)
    ensures |should| == (if title != "" then 2 else 0) + (if url != "" then 2 else 0)
    ensures title != "" ==> should[..2] == [MatchPhrase("title", title), MatchPhrase("abstract", title)]
    ensures url != "" ==> should[|should| - 2..] == [Match("abstract", url), Match("title", url)]
  {
    (if title != "" then [MatchPhrase("title", title), MatchPhrase("abstract", title)] else [])
    + (if url != "" then [Match("abstract", url), Match("title", url)] else [])
  }

  /** A `match` on the abstract for each token longer than three characters. */
  function TokenClauses(tokens: seq<string>): (should: seq<MatchClause>)
    ensures |should| <= |tokens|
  {
    if tokens == [] then []
    else (if |tokens[0]| > 3 then [Match("abstract", tokens[0])] else []) + TokenClauses(tokens[1..])
  }

  /** The should-clauses of the fallback query: match phrases on the title,
      matches on the url, and matches on the title's first eight tokens when
      the title is set but nothing was added yet. */
  method FallbackShould(tgt: Option<Source>) returns (should: seq<MatchClause>)
    ensures should == TitleUrlClauses(TargetTitle(tgt), TargetUrl(tgt))
  {
    var title := TargetTitle(tgt);
    var url := TargetUrl(tgt);
    should := [];
    if title != "" {
      should := should + [MatchPhrase("title", title), MatchPhrase("abstract", title)];
    }
    if url != "" {
      should := should + [Match("abstract", url), Match("title", url)];
    }
    if title != "" && should == [] {
      should := should + TokenClauses(Take(Words(title), 8));
    }
  }

  /** The hits `get_citations` lays out: those of the references query, or,
      when there are none and the fallback has clauses, those of the
      fallback query; None when a search that is run raises. */
  function CitationHits(paperId: string, limit: int, tgt: Option<Source>, es: GraphSearch): (hits: Option<seq<Source>>)
    ensures hits.None? <==>
              || es(ReferencesQuery(paperId, limit)).None?
              || (&& es(ReferencesQuery(paperId, limit)) == Some([])
                  && TitleUrlClauses(TargetTitle(tgt), TargetUrl(tgt)) != []
                  && es(ShouldQuery(TitleUrlClauses(TargetTitle(tgt), TargetUrl(tgt)), limit)).None?)
    ensures es(ReferencesQuery(paperId, limit)).Some? && es(ReferencesQuery(paperId, limit)).value != [] ==>
              hits == es(ReferencesQuery(paperId, limit))
    ensures hits != es(ReferencesQuery(paperId, limit)) ==>
              hits == es(ShouldQuery(TitleUrlClauses(TargetTitle(tgt), TargetUrl(tgt)), limit))
  {
    match es(ReferencesQuery(paperId, limit))
    case None => None
    case Some(hits) =>
      var should := TitleUrlClauses(TargetTitle(tgt), TargetUrl(tgt));
      if hits == [] && should != [] then es(ShouldQuery(should, limit)) else Some(hits)
  }

  /** The identifiers tried against OpenAlex, in order: the target's url, doi
      and id when set, then the requested id when non-empty. */
  function ResolutionCandidates(tgt: Option<Source>, paperId: string): (ids: seq<string>)
    ensures forall k :: 0 <= k < |ids| ==> ids[k] != ""
    ensures |ids| <= 4
  {
    (if tgt.Some? && Truthy(tgt.value.url) then [tgt.value.url.value] else [])
    + (if tgt.Some? && Truthy(tgt.value.doi) then [tgt.value.doi.value] else [])
    + (if tgt.Some? && Truthy(tgt.value.id) then [tgt.value.id.value] else [])
    + (if paperId != "" then [paperId] else [])
  }

  /** `resolve_work` as the OpenAlex model defines it, for a fixed transport. */
  function Resolver(get: string -> OpenAlex.HttpResult<OpenAlex.Work>): string -> Option<OpenAlex.Work>
  {
    (id: string) => OpenAlex.ResolveWork(id, get)
  }

  /** The first identifier that resolves, tried in order. */
  function FirstResolved<W>(ids: seq<string>, resolve: string -> Option<W>): (oa: Option<W>)
    ensures oa.Some? ==> exists k :: 0 <= k < |ids| && oa == resolve(ids[k])
  {
    if ids == [] then None
    else
      var w := resolve(ids[0]);
      if w.Some? then w
      else
        var rest := FirstResolved(ids[1..], resolve);
        assert rest.Some? ==> exists k :: 0 <= k < |ids| && rest == resolve(ids[k]) by {
          if rest.Some? {
            var k :| 0 <= k < |ids[1..]| && rest == resolve(ids[1..][k]);
            assert ids[k + 1] == ids[1..][k];
          }
        }
        rest
  }

  /** Nothing resolves exactly when no identifier does; otherwise the result
      is that of the first identifier that resolves. */
  lemma {:induction false} FirstResolvedIsFirst<W>(ids: seq<string>, resolve: string -> Option<W>)
    ensures FirstResolved(ids, resolve).None? <==> forall k :: 0 <= k < |ids| ==> resolve(ids[k]).None?
    ensures forall k :: 0 <= k < |ids| && resolve(ids[k]).Some? && (forall j :: 0 <= j < k ==> resolve(ids[j]).None?) ==>
              FirstResolved(ids, resolve) == resolve(ids[k])
  {
    if ids != [] {
      FirstResolvedIsFirst(ids[1..], resolve);
      forall k | 0 < k < |ids| ensures ids[k] == ids[1..][k - 1] {
      }
    }
  }

  /** `a or b` on optional results. */
  function Then<W>(a: Option<W>, b: Option<W>): (r: Option<W>)
    ensures r.Some? <==> a.Some? || b.Some?
    ensures a.Some? ==> r == a
  {
    if a.Some? then a else b
  }

  lemma {:induction false} FirstResolvedAppend<W>(a: seq<string>, b: seq<string>, resolve: string -> Option<W>)
    ensures FirstResolved(a + b, resolve) == Then(FirstResolved(a, resolve), FirstResolved(b, resolve))
  {
    if a != [] {
      assert (a + b)[1..] == a[1..] + b;
      FirstResolvedAppend(a[1..], b, resolve);
    } else {
      assert a + b == b;
    }
  }

  /** The candidate list splits into the four optional tries of the source. */
  lemma FirstResolvedSteps<W>(tgt: Option<Source>, paperId: string, resolve: string -> Option<W>)
    ensures var url := if tgt.Some? && Truthy(tgt.value.url) then [tgt.value.url.value] else [];
            var doi := if tgt.Some? && Truthy(tgt.value.doi) then [tgt.value.doi.value] else [];
            var id := if tgt.Some? && Truthy(tgt.value.id) then [tgt.value.id.value] else [];
            var raw := if paperId != "" then [paperId] else [];
            FirstResolved(ResolutionCandidates(tgt, paperId), resolve) ==
              Then(FirstResolved(url, resolve), Then(FirstResolved(doi, resolve),
                Then(FirstResolved(id, resolve), FirstResolved(raw, resolve))))
  {
    var url := if tgt.Some? && Truthy(tgt.value.url) then [tgt.value.url.value] else [];
    var doi := if tgt.Some? && Truthy(tgt.value.doi) then [tgt.value.doi.value] else [];
    var id := if tgt.Some? && Truthy(tgt.value.id) then [tgt.value.id.value] else [];
    var raw := if paperId != "" then [paperId] else [];
    FirstResolvedAppend(id, raw, resolve);
    FirstResolvedAppend(doi, id + raw, resolve);
    FirstResolvedAppend(url, doi + (id + raw), resolve);
    assert ResolutionCandidates(tgt, paperId) == url + (doi + (id + raw));
  }

  lemma FirstResolvedSingle<W>(x: string, resolve: string -> Option<W>)
    ensures FirstResolved([x], resolve) == resolve(x)
  {
    assert [x][1..] == [];
  }

  /** The OpenAlex lookup of `get_citations`: url, then doi, then id, then the
      requested id, each tried only while nothing has resolved. */
  method ResolveTarget(tgt: Option<Source>, paperId: string, get: string -> OpenAlex.HttpResult<OpenAlex.Work>)
    returns (oa: Option<OpenAlex.Work>)
    ensures oa == FirstResolved(ResolutionCandidates(tgt, paperId), Resolver(get))
  {
    ghost var resolve := Resolver(get);
    oa := None;
    if tgt.Some? && Truthy(tgt.value.url) {
      oa := OpenAlex.ResolveWork(tgt.value.url.value, get);
      FirstResolvedSingle(tgt.value.url.value, resolve);
    }
    if oa.None? && tgt.Some? && Truthy(tgt.value.doi) {
      oa := OpenAlex.ResolveWork(tgt.value.doi.value, get);
      FirstResolvedSingle(tgt.value.doi.value, resolve);
    }
    if oa.None? && tgt.Some? && Truthy(tgt.value.id) {
      oa := OpenAlex.ResolveWork(tgt.value.id.value, get);
      FirstResolvedSingle(tgt.value.id.value, resolve);
    }
    if oa.None? && paperId != "" {
      oa := OpenAlex.ResolveWork(paperId, get);
      FirstResolvedSingle(paperId, resolve);
    }
    FirstResolvedSteps(tgt, paperId, resolve);
  }

  /** The id `get_citations` asks OpenAlex for citing works of. */
  function WorkId(oa: OpenAlex.Work): Option<string>
  {
    Or(Or(oa.id, oa.openalexId), oa.id)
  }

  /** The citing works OpenAlex contributes: only when the index gave no hits
      and the target resolved. */
  function OpenAlexCiting(paperId: string, limit: int, tgt: Option<Source>, hits: seq<Source>,
                          get: string -> OpenAlex.HttpResult<OpenAlex.Work>,
                          search: OpenAlex.CitingQuery -> OpenAlex.HttpResult<seq<OpenAlex.Work>>): (works: seq<OpenAlex.Work>)
    ensures hits != [] ==> works == []
  {
    if hits != [] then []
    else
      match FirstResolved(ResolutionCandidates(tgt, paperId), Resolver(get))
      case None => []
      case Some(oa) => OpenAlex.CitingWorks(WorkId(oa), limit, search)
  }

  /** The OpenAlex fallback of `get_citations`: with no index hits, resolve the
      target and ask for the works citing it. */
  method FetchCiting(paperId: string, limit: int, tgt: Option<Source>, hits: seq<Source>,
                     get: string -> OpenAlex.HttpResult<OpenAlex.Work>,
                     search: OpenAlex.CitingQuery -> OpenAlex.HttpResult<seq<OpenAlex.Work>>)
    returns (citing: seq<OpenAlex.Work>)
    ensures citing == OpenAlexCiting(paperId, limit, tgt, hits, get, search)
  {
    citing := [];
    if hits == [] {
      var oa := ResolveTarget(tgt, paperId, get);
      if oa.Some? {
        citing := OpenAlex.CitingWorks(WorkId(oa.value), limit, search);
      }
    }
  }

  /** `get_citations`: status 500 when an index search raises; otherwise the
      centre, then the distinct hits of the references (or fallback) query,
      then, when there were no hits, the distinct works OpenAlex reports as
      citing the target; every other node cites the centre. */
  method GetCitations(paperId: string, limit: int, tgt: Option<Source>, es: GraphSearch,
                      get: string -> OpenAlex.HttpResult<OpenAlex.Work>,
                      search: OpenAlex.CitingQuery -> OpenAlex.HttpResult<seq<OpenAlex.Work>>)
    returns (g: GraphResult)
    ensures g.Failed? <==> CitationHits(paperId, limit, tgt, es).None?
    ensures g.Failed? ==> g.status == 500
    ensures g.Built? ==>
              var hits := CitationHits(paperId, limit, tgt, es).value;
              var citing := OpenAlexCiting(paperId, limit, tgt, hits, get, search);
              && g.graph.nodes == Extend([CenterNode(paperId, tgt)], HitNodes(hits) + CitingNodes(citing))
              && g.graph.edges == StarEdges(g.graph.nodes, "cites")
  {
    var reply := es(ReferencesQuery(paperId, limit));
    if reply == Some([]) {
      var fallback := FallbackShould(tgt);
      if fallback != [] {
        reply := es(ShouldQuery(fallback, limit));
      }
    }
    assert reply == CitationHits(paperId, limit, tgt, es);
    if reply.None? {
      g := Failed(500);
      return;
    }
    var hits := reply.value;
    var center := CenterNode(paperId, tgt);
    assert IdSet([center]) == {center.id} by {
      assert [center][0].id == center.id;
    }
    var nodes, edges, seen := AddNodes([center], [], {center.id}, HitNodes(hits), "cites");
    var citing := FetchCiting(paperId, limit, tgt, hits, get, search);
    nodes, edges, seen := AddNodes(nodes, edges, seen, CitingNodes(citing), "cites");
    ExtendAppend([center], HitNodes(hits), CitingNodes(citing));
    g := Built(GraphResponse(nodes, edges));
  }

  /** Two seen-set loops sharing their seen-set are one loop over both lists. */
  lemma {:induction false} ExtendAppend(nodes: seq<Node>, a: seq<Node>, b: seq<Node>)
    ensures Extend(Extend(nodes, a), b) == Extend(nodes, a + b)
  {
    if b != [] {
      ExtendAppend(nodes, a, b[..|b| - 1]);
      assert (a + b)[..|a + b| - 1] == a + b[..|b| - 1];
    } else {
      assert a + b == a;
    }
  }

  /** When no search raises, the citation graph is a star around the centre
      with relation `cites`, holding every index hit by id. */
  lemma CitationsAreStar(paperId: string, limit: int, tgt: Option<Source>, es: GraphSearch,
                         get: string -> OpenAlex.HttpResult<OpenAlex.Work>,
                         search: OpenAlex.CitingQuery -> OpenAlex.HttpResult<seq<OpenAlex.Work>>)
    requires CitationHits(paperId, limit, tgt, es).Some?
    ensures var hits := CitationHits(paperId, limit, tgt, es).value;
            var cands := HitNodes(hits) + CitingNodes(OpenAlexCiting(paperId, limit, tgt, hits, get, search));
            var nodes := Extend([CenterNode(paperId, tgt)], cands);
            && Star(GraphResponse(nodes, StarEdges(nodes, "cites")), CenterNode(paperId, tgt), "cites")
            && (forall h :: h in hits ==> PaperId(h) in Ids(nodes))
  {
    var hits := CitationHits(paperId, limit, tgt, es).value;
    var cands := HitNodes(hits) + CitingNodes(OpenAlexCiting(paperId, limit, tgt, hits, get, search));
    ExtendStar(CenterNode(paperId, tgt), cands, "cites");
    forall h | h in hits ensures NodeFromSource(h) in cands {
      var k :| 0 <= k < |hits| && hits[k] == h;
      assert cands[k] == NodeFromSource(h);
    }
  }

  /** The fallback's token branch never adds clauses: a non-empty title has
      already added its two phrase clauses. */
  lemma FallbackTokensNeverUsed(tgt: Option<Source>)
    ensures TargetTitle(tgt) != "" ==> |TitleUrlClauses(TargetTitle(tgt), TargetUrl(tgt))| >= 2
  {
  }

  // ---------------------------------------------------------------------------
  // get_similar

  function MatchAll(field: string, values: seq<string>): (should: seq<MatchClause>)
    ensures |should| == |values| && forall k :: 0 <= k < |values| ==> should[k] == Match(field, values[k])
  {
    seq(|values|, k requires 0 <= k < |values| => Match(field, values[k]))
  }

  /** `x or []` on an optional list. */
  function ListOrEmpty(o: Option<seq<string>>): seq<string>
  {
    if o.Some? then o.value else []
  }

  /** The should-clauses of `get_similar`: a match per author among the first
      five and per keyword among the first eight. */
  method SimilarShould(authors: seq<string>, keywords: seq<string>) returns (should: seq<MatchClause>)
    ensures should == MatchAll("authors", Take(authors, 5)) + MatchAll("keywords", Take(keywords, 8))
    ensures |should| == Min(5, |authors|) + Min(8, |keywords|)
  {
    should := [];
    var firstAuthors := Take(authors, 5);
    for i := 0 to |firstAuthors|
      invariant should == MatchAll("authors", firstAuthors[..i])
    {
      should := should + [Match("authors", firstAuthors[i])];
    }
    assert firstAuthors[..|firstAuthors|] == firstAuthors;
    ghost var fromAuthors := should;
    var firstKeywords := Take(keywords, 8);
    for i := 0 to |firstKeywords|
      invariant should == fromAuthors + MatchAll("keywords", firstKeywords[..i])
    {
      should := should + [Match("keywords", firstKeywords[i])];
    }
    assert firstKeywords[..|firstKeywords|] == firstKeywords;
  }

  /** The query of `get_similar`. */
  function SimilarQuery(tgt: Option<Source>, limit: int): GraphQuery
  {
    var authors := if tgt.Some? then ListOrEmpty(tgt.value.authors) else [];
    var keywords := if tgt.Some? then ListOrEmpty(tgt.value.keywords) else [];
    ShouldQuery(MatchAll("authors", Take(authors, 5)) + MatchAll("keywords", Take(keywords, 8)), limit)
  }

  /** `get_similar`: status 500 when the similarity search raises; otherwise
      the centre, then the distinct hits of the similarity query other than
      the centre, each linked to it as `similar`. */
  method GetSimilar(paperId: string, limit: int, tgt: Option<Source>, es: GraphSearch)
    returns (g: GraphResult)
    ensures g.Failed? <==> es(SimilarQuery(tgt, limit)).None?
    ensures g.Failed? ==> g.status == 500
    ensures g.Built? ==>
              && g.graph.nodes == Extend([CenterNode(paperId, tgt)], HitNodes(es(SimilarQuery(tgt, limit)).value))
              && g.graph.edges == StarEdges(g.graph.nodes, "similar")
  {
    var authors := if tgt.Some? then ListOrEmpty(tgt.value.authors) else [];
    var keywords := if tgt.Some? then ListOrEmpty(tgt.value.keywords) else [];
    var should := SimilarShould(authors, keywords);
    var reply := es(ShouldQuery(should, limit));
    if reply.None? {
      g := Failed(500);
      return;
    }
    var hits := reply.value;
    var center := CenterNode(paperId, tgt);
    assert IdSet([center]) == {center.id} by {
      assert [center][0].id == center.id;
    }
    var nodes, edges, seen := AddNodes([center], [], {center.id}, HitNodes(hits), "similar");
    g := Built(GraphResponse(nodes, edges));
  }

  /** When the search succeeds, the similarity graph is a star around the
      centre with relation `similar`, holding every hit by id. */
  lemma SimilarIsStar(paperId: string, limit: int, tgt: Option<Source>, es: GraphSearch)
    requires es(SimilarQuery(tgt, limit)).Some?
    ensures var hits := es(SimilarQuery(tgt, limit)).value;
            var nodes := Extend([CenterNode(paperId, tgt)], HitNodes(hits));
            && Star(GraphResponse(nodes, StarEdges(nodes, "similar")), CenterNode(paperId, tgt), "similar")
            && (forall h :: h in hits ==> PaperId(h) in Ids(nodes))
  {
    var hits := es(SimilarQuery(tgt, limit)).value;
    ExtendStar(CenterNode(paperId, tgt), HitNodes(hits), "similar");
    forall h | h in hits ensures NodeFromSource(h) in HitNodes(hits) {
      var k :| 0 <= k < |hits| && hits[k] == h;
      assert HitNodes(hits)[k] == NodeFromSource(h);
    }
  }
}
