/**
 * The evidence graph of the paper-comparison endpoint. Its nodes are the
 * compared papers; an edge i -> j says that papers i and j share references
 * (`shared_reference`, with up to ten resolved references as evidence) or
 * that paper i lists paper j's id among its references (`cites`). When no
 * pair yields either, every pair i < j is joined both ways by a
 * `semantic_similarity` edge carrying the embedding similarity.
 *
 * Python's set iteration order, behind `list(shared)[:10]`, is a parameter
 * `order`; `Lists(order)` says it enumerates every set exactly.
 */
module Evidence {
  import opened Py
  import opened Seqs
  import opened PaperLookup
  import Graph
  import Metrics

  const SharedReference: string := "shared_reference"
  const Cites: string := "cites"
  const SemanticSimilarity: string := "semantic_similarity"

  /** At most this many shared references are resolved per edge. */
  const EvidenceCap: nat := 10

  /** One piece of evidence: a resolved reference with its label, or the
      similarity summary of a synthesised edge (its label, the similarity
      printed to three places, is not modelled). */
  datatype Evidence = RefEvidence(refId: string, labelText: string, meta: Meta)
                    | SemanticEvidence(refId: string, similarity: real, sharedKeywords: set<string>)

  datatype Edge = Edge(source: string, target: string, relation: string, evidence: seq<Evidence>)

  /** `order` lists each set's elements exactly once. */
  ghost predicate Lists(order: set<string> -> seq<string>)
  {
    forall s :: |order(s)| == |s| && forall x :: x in order(s) <==> x in s
  }

  // ---------------------------------------------------------------------------
  // Walking the pairs of n papers

  /** pair(i, j) for the columns j < m other than i, in order. */
  function Row<T>(pair: (nat, nat) -> seq<T>, i: nat, m: nat): seq<T>
  {
    if m == 0 then [] else Row(pair, i, m - 1) + (if i == m - 1 then [] else pair(i, m - 1))
  }

  /** Rows i < m of the ordered pairs (i, j), i != j, of n papers, the order of
      two nested `for` loops over `range(n)`. */
  function OrderedPairs<T>(pair: (nat, nat) -> seq<T>, n: nat, m: nat): seq<T>
  {
    if m == 0 then [] else OrderedPairs(pair, n, m - 1) + Row(pair, m - 1, n)
  }

  /** pair(i, j) for the columns i < j < m, in order. */
  function UpperRow<T>(pair: (nat, nat) -> seq<T>, i: nat, m: nat): seq<T>
  {
    if m <= i + 1 then [] else UpperRow(pair, i, m - 1) + pair(i, m - 1)
  }

  /** Rows i < m of the pairs i < j of n papers, the order of `for i in
      range(n)` around `for j in range(i + 1, n)`. */
  function UnorderedPairs<T>(pair: (nat, nat) -> seq<T>, n: nat, m: nat): seq<T>
  {
    if m == 0 then [] else UnorderedPairs(pair, n, m - 1) + UpperRow(pair, m - 1, n)
  }

  /** One step of the loops: the row grows by one column, a finished row is
      added to the rows. */
  lemma RowStep<T>(pair: (nat, nat) -> seq<T>, n: nat, i: nat, j: nat)
    ensures Row(pair, i, j + 1) == Row(pair, i, j) + (if i == j then [] else pair(i, j))
    ensures OrderedPairs(pair, n, i + 1) == OrderedPairs(pair, n, i) + Row(pair, i, n)
  {
  }

  lemma UpperStep<T>(pair: (nat, nat) -> seq<T>, n: nat, i: nat, j: nat)
    ensures i < j ==> UpperRow(pair, i, j + 1) == UpperRow(pair, i, j) + pair(i, j)
    ensures UnorderedPairs(pair, n, i + 1) == UnorderedPairs(pair, n, i) + UpperRow(pair, i, n)
  {
  }

  lemma {:induction false} RowMembers<T>(pair: (nat, nat) -> seq<T>, i: nat, m: nat, x: T)
    ensures x in Row(pair, i, m) <==> exists j :: 0 <= j < m && j != i && x in pair(i, j)
  {
    if m > 0 {
      RowMembers(pair, i, m - 1, x);
    }
  }

  /** x is in pair(i, j) for some i < m, j < n, i != j. */
  ghost predicate InOrdered<T>(pair: (nat, nat) -> seq<T>, n: nat, m: nat, x: T)
  {
    exists i, j :: 0 <= i < m && 0 <= j < n && i != j && x in pair(i, j)
  }

  lemma {:induction false} OrderedPairsMembers<T>(pair: (nat, nat) -> seq<T>, n: nat, m: nat, x: T)
    ensures x in OrderedPairs(pair, n, m) <==>
              exists i, j :: 0 <= i < m && 0 <= j < n && i != j && x in pair(i, j)
  {
    if m > 0 {
      OrderedPairsMembers(pair, n, m - 1, x);
      RowMembers(pair, m - 1, n, x);
      assert x in OrderedPairs(pair, n, m) <==> x in OrderedPairs(pair, n, m - 1) || x in Row(pair, m - 1, n);
      if x in Row(pair, m - 1, n) {
        var j :| 0 <= j < n && j != m - 1 && x in pair(m - 1, j);
        assert InOrdered(pair, n, m, x);
      }
      if x in OrderedPairs(pair, n, m - 1) {
        var i, j :| 0 <= i < m - 1 && 0 <= j < n && i != j && x in pair(i, j);
        assert InOrdered(pair, n, m, x);
      }
      if InOrdered(pair, n, m, x) {
        var i, j :| 0 <= i < m && 0 <= j < n && i != j && x in pair(i, j);
        if i == m - 1 {
          assert x in Row(pair, m - 1, n);
        } else {
          assert InOrdered(pair, n, m - 1, x);
        }
      }
    }
  }

  lemma {:induction false} UpperRowMembers<T>(pair: (nat, nat) -> seq<T>, i: nat, m: nat, x: T)
    ensures x in UpperRow(pair, i, m) <==> exists j :: i < j < m && x in pair(i, j)
  {
    if m > i + 1 {
      UpperRowMembers(pair, i, m - 1, x);
    }
  }

  /** x is in pair(i, j) for some i < m, i < j < n. */
  ghost predicate InUnordered<T>(pair: (nat, nat) -> seq<T>, n: nat, m: nat, x: T)
  {
    exists i, j :: 0 <= i < m && i < j < n && x in pair(i, j)
  }

  lemma {:induction false} UnorderedPairsMembers<T>(pair: (nat, nat) -> seq<T>, n: nat, m: nat, x: T)
    ensures x in UnorderedPairs(pair, n, m) <==> exists i, j :: 0 <= i < m && i < j < n && x in pair(i, j)
  {
    if m > 0 {
      UnorderedPairsMembers(pair, n, m - 1, x);
      UpperRowMembers(pair, m - 1, n, x);
      assert x in UnorderedPairs(pair, n, m) <==> x in UnorderedPairs(pair, n, m - 1) || x in UpperRow(pair, m - 1, n);
      if x in UpperRow(pair, m - 1, n) {
        var j :| m - 1 < j < n && x in pair(m - 1, j);
        assert InUnordered(pair, n, m, x);
      }
      if x in UnorderedPairs(pair, n, m - 1) {
        var i, j :| 0 <= i < m - 1 && i < j < n && x in pair(i, j);
        assert InUnordered(pair, n, m, x);
      }
      if InUnordered(pair, n, m, x) {
        var i, j :| 0 <= i < m && i < j < n && x in pair(i, j);
        if i == m - 1 {
          assert x in UpperRow(pair, m - 1, n);
        } else {
          assert InUnordered(pair, n, m - 1, x);
        }
      }
    }
  }

  lemma {:induction false} UpperRowCount<T>(pair: (nat, nat) -> seq<T>, n: nat, i: nat, m: nat)
    requires m <= n
    requires forall a: nat, b: nat :: a < b < n ==> |pair(a, b)| == 2
    ensures |UpperRow(pair, i, m)| == 2 * Max(0, m - i - 1)
  {
    if m > i + 1 {
      UpperRowCount(pair, n, i, m - 1);
    }
  }

  /** With two items per pair, rows below m hold 2 (n-1) + 2 (n-2) + ...
      items, m (2n - m - 1) in all. */
  lemma {:induction false} UnorderedPairsCount<T>(pair: (nat, nat) -> seq<T>, n: nat, m: nat)
    requires m <= n
    requires forall a: nat, b: nat :: a < b < n ==> |pair(a, b)| == 2
    ensures |UnorderedPairs(pair, n, m)| == m * (2 * n - m - 1)
  {
    if m > 0 {
      UnorderedPairsCount(pair, n, m - 1);
      UpperRowCount(pair, n, m - 1, n);
      assert (m - 1) * (2 * n - (m - 1) - 1) + 2 * (n - m) == m * (2 * n - m - 1);
    }
  }

  // ---------------------------------------------------------------------------
  // Labels

  /** A year as an f-string renders it. */
  function YearString(y: Graph.Year): string
  {
    match y
    case YearText(text) => text
    case YearNumber(number) => IntToString(number)
  }

  predicate YearTruthy(y: Option<Graph.Year>)
  {
    match y
    case None => false
    case Some(YearText(text)) => text != ""
    case Some(YearNumber(number)) => number != 0
  }

  /** The title when it is truthy, else the id. */
  function TitleOrId(m: Meta): (r: string)
    ensures Truthy(m.title) ==> r == m.title.value
    ensures !Truthy(m.title) ==> r == m.id
  {
    if Truthy(m.title) then m.title.value else m.id
  }

  /** The label of a resolved reference. With authors, the last whitespace
      word of the first author's name (`str()` of the entry) followed by
      " et al." and, when the year is set, ", {year}"; an empty name gives an
      empty surname. A name of only whitespace makes `split()[-1]` raise, and
      like a reference without authors it is labelled by its title, else its
      id. */
  function Label(m: Meta): (text: string)
    ensures m.authors == [] ==> text == TitleOrId(m)
    ensures m.authors != [] && Str(m.authors[0]) != "" && Words(Str(m.authors[0])) == [] ==>
              text == TitleOrId(m)
    ensures m.authors != [] && Words(Str(m.authors[0])) != [] ==>
              var ws := Words(Str(m.authors[0]));
              && (YearTruthy(m.year) ==> text == ws[|ws| - 1] + " et al." + ", " + YearString(m.year.value))
              && (!YearTruthy(m.year) ==> text == ws[|ws| - 1] + " et al.")
    ensures m.authors != [] && Str(m.authors[0]) == "" ==>
              && (YearTruthy(m.year) ==> text == " et al." + ", " + YearString(m.year.value))
              && (!YearTruthy(m.year) ==> text == " et al.")
  {
    if m.authors == [] then TitleOrId(m)
    else
      var name := Str(m.authors[0]);
      var ws := Words(name);
      if name != "" && ws == [] then TitleOrId(m)
      else
        var surname := if name != "" then ws[|ws| - 1] else name;
        var head := surname + " et al.";
        if YearTruthy(m.year) then
          head + ", " + YearString(m.year.value)
        else head
  }

  /** The surname a label starts with is a single word: not empty and free of
      whitespace. */
  lemma SurnameIsWord(m: Meta)
    requires m.authors != [] && Words(Str(m.authors[0])) != []
    ensures var ws := Words(Str(m.authors[0])); IsWord(ws[|ws| - 1])
  {
    WordsAreWords(Str(m.authors[0]));
  }

  /** A reference neither the index nor OpenAlex knows is labelled by its raw
      id. */
  lemma UnresolvedLabel(rid: string, es: string -> EsGet, resolve: string -> Option<OpenAlex.Work>)
    requires es(rid).Missing? && resolve(rid).None?
    ensures Label(RefMeta(rid, es, resolve)) == rid
  {
  }

  // ---------------------------------------------------------------------------
  // Citation edges

  function RefEvidenceFor(meta: string -> Meta, rid: string): Evidence
  {
    RefEvidence(meta(rid).id, Label(meta(rid)), meta(rid))
  }

  /** The evidence of a shared-reference edge, one item per listed id. */
  function EvidenceList(rids: seq<string>, meta: string -> Meta): (ev: seq<Evidence>)
    ensures |ev| == |rids| && forall k :: 0 <= k < |rids| ==> ev[k] == RefEvidenceFor(meta, rids[k])
  {
    seq(|rids|, k requires 0 <= k < |rids| => RefEvidenceFor(meta, rids[k]))
  }

  /** The references two papers share, or nothing when either has none. */
  function Shared(a: set<string>, b: set<string>): (s: set<string>)
    ensures s == a * b
  {
    if a != {} && b != {} then a * b else {}
  }

  /** The edges emitted for the ordered pair (i, j), i != j. */
  function PairEdges(ids: seq<string>, refs: seq<set<string>>, meta: string -> Meta,
                     order: set<string> -> seq<string>, i: nat, j: nat): (es: seq<Edge>)
    requires |refs| == |ids| && i < |ids| && j < |ids|
  {
    var shared := Shared(refs[i], refs[j]);
    (if shared != {} then [Edge(ids[i], ids[j], SharedReference,
                                EvidenceList(Take(order(shared), EvidenceCap), meta))]
     else [])
    + (if ids[j] in refs[i] then [Edge(ids[i], ids[j], Cites, [])] else [])
  }

  predicate HasRelation(es: seq<Edge>, relation: string)
  {
    exists k :: 0 <= k < |es| && es[k].relation == relation
  }

  /** Between papers i and j: a `shared_reference` edge exactly when their
      reference sets meet, a `cites` edge with no evidence exactly when i lists
      j's id, nothing else, and every edge runs from i to j. A shared-reference
      edge resolves min(10, |shared|) distinct shared references. */
  lemma PairEdgesSpec(ids: seq<string>, refs: seq<set<string>>, meta: string -> Meta,
                      order: set<string> -> seq<string>, i: nat, j: nat)
    requires |refs| == |ids| && i < |ids| && j < |ids|
    ensures var es := PairEdges(ids, refs, meta, order, i, j);
            && (forall e :: e in es ==> e.source == ids[i] && e.target == ids[j])
            && (forall e :: e in es ==> e.relation == SharedReference || e.relation == Cites)
            && (HasRelation(es, SharedReference) <==> refs[i] * refs[j] != {})
            && (HasRelation(es, Cites) <==> ids[j] in refs[i])
            && (forall e :: e in es && e.relation == Cites ==> e.evidence == [])
            && (forall e :: e in es && e.relation == SharedReference ==> |e.evidence| <= EvidenceCap)
  {
    var es := PairEdges(ids, refs, meta, order, i, j);
    if refs[i] * refs[j] != {} {
      assert es[0].relation == SharedReference;
    }
    if ids[j] in refs[i] {
      assert es[|es| - 1].relation == Cites;
    }
  }

  /** With a proper enumeration, the evidence of a shared-reference edge
      resolves min(10, |shared|) distinct shared references, in the listed
      order. */
  lemma SharedEvidenceSpec(refs: seq<set<string>>, meta: string -> Meta,
                           order: set<string> -> seq<string>, i: nat, j: nat)
    requires Lists(order) && i < |refs| && j < |refs|
    ensures var rids := Take(order(refs[i] * refs[j]), EvidenceCap);
            && |rids| == Min(EvidenceCap, |refs[i] * refs[j]|)
            && (forall r :: r in rids ==> r in refs[i] && r in refs[j])
            && EvidenceList(rids, meta) == seq(|rids|, k requires 0 <= k < |rids| => RefEvidenceFor(meta, rids[k]))
  {
    var shared := refs[i] * refs[j];
    var rids := Take(order(shared), EvidenceCap);
    forall r | r in rids ensures r in refs[i] && r in refs[j] {
      assert r in order(shared);
    }
  }

  /** `PairEdges` as a function of the pair. */
  function CitationPair(ids: seq<string>, refs: seq<set<string>>, meta: string -> Meta,
                        order: set<string> -> seq<string>): (nat, nat) -> seq<Edge>
    requires |refs| == |ids|
  {
    (i: nat, j: nat) => if i < |ids| && j < |ids| then PairEdges(ids, refs, meta, order, i, j) else []
  }

  /** The shared-reference and citation edges of all ordered pairs, row by
      row. */
  function CitationEdges(ids: seq<string>, refs: seq<set<string>>, meta: string -> Meta,
                         order: set<string> -> seq<string>): seq<Edge>
    requires |refs| == |ids|
  {
    OrderedPairs(CitationPair(ids, refs, meta, order), |ids|, |ids|)
  }

  /** The citation edges are exactly the edges of the ordered pairs of
      distinct papers. */
  lemma CitationEdgesMembers(ids: seq<string>, refs: seq<set<string>>, meta: string -> Meta,
                             order: set<string> -> seq<string>, e: Edge)
    requires |refs| == |ids|
    ensures e in CitationEdges(ids, refs, meta, order) <==>
              exists i, j :: 0 <= i < |ids| && 0 <= j < |ids| && i != j && e in PairEdges(ids, refs, meta, order, i, j)
  {
    var p := CitationPair(ids, refs, meta, order);
    OrderedPairsMembers(p, |ids|, |ids|, e);
    if e in CitationEdges(ids, refs, meta, order) {
      var i, j :| 0 <= i < |ids| && 0 <= j < |ids| && i != j && e in p(i, j);
      assert e in PairEdges(ids, refs, meta, order, i, j);
    }
    if exists i, j :: 0 <= i < |ids| && 0 <= j < |ids| && i != j && e in PairEdges(ids, refs, meta, order, i, j) {
      var i, j :| 0 <= i < |ids| && 0 <= j < |ids| && i != j && e in PairEdges(ids, refs, meta, order, i, j);
      assert e in p(i, j);
    }
  }

  /** The loop resolving the evidence of a shared-reference edge. */
  method ResolveEvidence(rids: seq<string>, meta: string -> Meta) returns (evidence: seq<Evidence>)
    ensures evidence == EvidenceList(rids, meta)
  {
    evidence := [];
    for k := 0 to |rids|
      invariant evidence == EvidenceList(rids[..k], meta)
    {
      var m := meta(rids[k]);
      evidence := evidence + [RefEvidence(m.id, Label(m), m)];
    }
    assert rids[..|rids|] == rids;
  }

  /** The body of the inner loop for i != j: appends the pair's edges. */
  method EmitPair(edges: seq<Edge>, ids: seq<string>, refs: seq<set<string>>, meta: string -> Meta,
                  order: set<string> -> seq<string>, i: nat, j: nat,
                  ghost pair: (nat, nat) -> seq<Edge>) returns (edges': seq<Edge>)
    requires |refs| == |ids| && i < |ids| && j < |ids|
    requires pair == CitationPair(ids, refs, meta, order)
    ensures edges' == edges + pair(i, j)
  {
    edges' := edges;
    var aRefs := refs[i];
    var bRefs := refs[j];
    var shared := if aRefs != {} && bRefs != {} then aRefs * bRefs else {};
    if shared != {} {
      var evidence := ResolveEvidence(Take(order(shared), EvidenceCap), meta);
      edges' := edges' + [Edge(ids[i], ids[j], SharedReference, evidence)];
    }
    if ids[j] in aRefs {
      edges' := edges' + [Edge(ids[i], ids[j], Cites, [])];
    }
  }

  /** The nested loops collecting the shared-reference and citation edges. */
  method CollectCitationEdges(ids: seq<string>, refs: seq<set<string>>, meta: string -> Meta,
                              order: set<string> -> seq<string>) returns (edges: seq<Edge>)
    requires |refs| == |ids|
    ensures edges == CitationEdges(ids, refs, meta, order)
  {
    var n := |ids|;
    ghost var p := CitationPair(ids, refs, meta, order);
    edges := [];
    for i := 0 to n
      invariant edges == OrderedPairs(p, n, i)
    {
      RowStep(p, n, i, n);
      edges := EmitRow(edges, ids, refs, meta, order, i, p);
    }
  }

  /** The inner loop of the citation edges: row i, column by column. */
  method EmitRow(edges: seq<Edge>, ids: seq<string>, refs: seq<set<string>>, meta: string -> Meta,
                 order: set<string> -> seq<string>, i: nat,
                 ghost pair: (nat, nat) -> seq<Edge>) returns (edges': seq<Edge>)
    requires |refs| == |ids| && i < |ids|
    requires pair == CitationPair(ids, refs, meta, order)
    ensures edges' == edges + Row(pair, i, |ids|)
  {
    edges' := edges;
    for j := 0 to |ids|
      invariant edges' == edges + Row(pair, i, j)
    {
      RowStep(pair, |ids|, i, j);
      if i == j {
        AppendNil(Row(pair, i, j));
        continue;
      }
      edges' := EmitPair(edges', ids, refs, meta, order, i, j, pair);
      AppendAssoc(edges, Row(pair, i, j), pair(i, j));
    }
  }

  // ---------------------------------------------------------------------------
  // The semantic fallback

  /** `semantic:{i}-{j}` */
  function SemanticRefId(i: nat, j: nat): (r: string)
    ensures StartsWith(r, "semantic:")
  {
    "semantic:" + NatToString(i) + "-" + NatToString(j)
  }

  /** The two edges synthesised for a pair i < j: i -> j and j -> i, sharing
      one evidence item with the embedding similarity and the shared
      keywords. */
  function SemanticPair(ids: seq<string>, sim: (nat, nat) -> real, kws: seq<set<string>>,
                        i: nat, j: nat): (es: seq<Edge>)
    requires |kws| == |ids| && i < j < |ids|
  {
    var item := SemanticEvidence(SemanticRefId(i, j), sim(i, j), kws[i] * kws[j]);
    [Edge(ids[i], ids[j], SemanticSimilarity, [item]), Edge(ids[j], ids[i], SemanticSimilarity, [item])]
  }

  /** `SemanticPair` as a function of the pair. */
  function SemanticPairs(ids: seq<string>, sim: (nat, nat) -> real, kws: seq<set<string>>): (nat, nat) -> seq<Edge>
    requires |kws| == |ids|
  {
    (i: nat, j: nat) => if i < j < |ids| then SemanticPair(ids, sim, kws, i, j) else []
  }

  /** The fallback edges of all pairs i < j, row by row. */
  function SemanticEdges(ids: seq<string>, sim: (nat, nat) -> real, kws: seq<set<string>>): seq<Edge>
    requires |kws| == |ids|
  {
    UnorderedPairs(SemanticPairs(ids, sim, kws), |ids|, |ids|)
  }

  /** n papers get n (n - 1) fallback edges. */
  lemma SemanticEdgesCount(ids: seq<string>, sim: (nat, nat) -> real, kws: seq<set<string>>)
    requires |kws| == |ids|
    ensures |SemanticEdges(ids, sim, kws)| == |ids| * (|ids| - 1)
  {
    var n := |ids|;
    var p := SemanticPairs(ids, sim, kws);
    forall a: nat, b: nat | a < b < n
      ensures |p(a, b)| == 2
    {
      assert p(a, b) == SemanticPair(ids, sim, kws, a, b);
    }
    UnorderedPairsCount(p, n, n);
    assert n * (2 * n - n - 1) == n * (n - 1);
  }

  /** Every fallback edge comes with its reverse, carrying the same single
      evidence item. */
  lemma SemanticEdgesSymmetric(ids: seq<string>, sim: (nat, nat) -> real, kws: seq<set<string>>, e: Edge)
    requires |kws| == |ids|
    requires e in SemanticEdges(ids, sim, kws)
    ensures e.relation == SemanticSimilarity && |e.evidence| == 1
    ensures Edge(e.target, e.source, e.relation, e.evidence) in SemanticEdges(ids, sim, kws)
  {
    var n := |ids|;
    var p := SemanticPairs(ids, sim, kws);
    UnorderedPairsMembers(p, n, n, e);
    var i, j :| 0 <= i < n && i < j < n && e in p(i, j);
    var rev := Edge(e.target, e.source, e.relation, e.evidence);
    assert rev in p(i, j);
    UnorderedPairsMembers(p, n, n, rev);
  }

  /** The nested loops synthesising the fallback edges. */
  method CollectSemanticEdges(ids: seq<string>, sim: array2<real>, ghost simOf: (nat, nat) -> real,
                              kws: seq<set<string>>) returns (edges: seq<Edge>)
    requires |kws| == |ids| && sim.Length0 == |ids| && sim.Length1 == |ids|
    requires forall i, j :: 0 <= i < |ids| && 0 <= j < |ids| ==> sim[i, j] == simOf(i, j)
    ensures edges == SemanticEdges(ids, simOf, kws)
  {
    var n := |ids|;
    ghost var p := SemanticPairs(ids, simOf, kws);
    edges := [];
    for i := 0 to n
      invariant edges == UnorderedPairs(p, n, i)
    {
      AppendNil(edges);
      for j := i + 1 to n
        invariant edges == UnorderedPairs(p, n, i) + UpperRow(p, i, j)
      {
        var score := sim[i, j];
        var sharedKw := kws[i] * kws[j];
        var item := SemanticEvidence(SemanticRefId(i, j), score, sharedKw);
        ghost var before := edges;
        edges := edges + [Edge(ids[i], ids[j], SemanticSimilarity, [item])];
        edges := edges + [Edge(ids[j], ids[i], SemanticSimilarity, [item])];
        assert edges == before + p(i, j);
        UpperStep(p, n, i, j);
        AppendAssoc(UnorderedPairs(p, n, i), UpperRow(p, i, j), p(i, j));
      }
      UpperStep(p, n, i, n);
    }
  }

  // ---------------------------------------------------------------------------
  // The whole graph

  /** The evidence edges: the citation edges, or the fallback when there are
      none. */
  function GraphEdges(ids: seq<string>, refs: seq<set<string>>, meta: string -> Meta,
                      order: set<string> -> seq<string>, sim: (nat, nat) -> real,
                      kws: seq<set<string>>): seq<Edge>
    requires |refs| == |ids| && |kws| == |ids|
  {
    var cited := CitationEdges(ids, refs, meta, order);
    if cited != [] then cited else SemanticEdges(ids, sim, kws)
  }

  /** The fallback is used only when no citation edge exists, and then it
      supplies n (n - 1) edges; so two or more papers always get a non-empty
      graph. */
  lemma GraphEdgesSpec(ids: seq<string>, refs: seq<set<string>>, meta: string -> Meta,
                       order: set<string> -> seq<string>, sim: (nat, nat) -> real,
                       kws: seq<set<string>>)
    requires |refs| == |ids| && |kws| == |ids|
    ensures var es := GraphEdges(ids, refs, meta, order, sim, kws);
            && (CitationEdges(ids, refs, meta, order) != [] ==>
                  es == CitationEdges(ids, refs, meta, order))
            && (CitationEdges(ids, refs, meta, order) == [] ==> |es| == |ids| * (|ids| - 1))
            && (|ids| >= 2 ==> es != [])
  {
    var n := |ids|;
    SemanticEdgesCount(ids, sim, kws);
    if n >= 2 {
      assert n * (n - 1) >= 2 by {
        assert n - 1 >= 1;
      }
    }
  }
}
