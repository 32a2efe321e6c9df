/**
 * The three pairwise metrics of the paper-comparison endpoint: embedding
 * cosine similarity, citation overlap normalised by the smaller reference
 * set, and the Jaccard index of the keyword sets. Each is an n x n matrix
 * with 1.0 on its diagonal, filled in place by nested loops.
 */
module Metrics {
  import opened Py
  import AiService

  // ---------------------------------------------------------------------------
  // Set sizes

  lemma SubsetCard<T>(a: set<T>, b: set<T>)
    requires a <= b
    ensures |a| <= |b|
    ensures |a| == |b| ==> a == b
  {
    var rest := b - a;
    assert b == a + rest && a * rest == {};
    assert |b| == |a| + |rest|;
    if |a| == |b| {
      assert rest == {};
    }
  }

  // ---------------------------------------------------------------------------
  // Pairwise scores

  /** Citation overlap of two reference sets: the number of shared references
      over the size of the smaller set when both are non-empty, else 0.0. The
      source's `denom > 0` guard always holds when both sets are non-empty. */
  function CitationOverlap(a: set<string>, b: set<string>): (r: real)
    ensures 0.0 <= r <= 1.0
    ensures r == 0.0 <==> a * b == {}
  {
    if a != {} && b != {} then
      SubsetCard(a * b, a);
      SubsetCard(a * b, b);
      (|a * b| as real) / (Min(|a|, |b|) as real)
    else 0.0
  }

  /** Keyword overlap of two keyword sets: the Jaccard index |A∩B| / |A∪B|
      when either set is non-empty, else 0.0. The source's guard on an empty
      union always holds then. */
  function KeywordOverlap(a: set<string>, b: set<string>): (r: real)
    ensures 0.0 <= r <= 1.0
    ensures r == 0.0 <==> a * b == {}
  {
    if a != {} || b != {} then
      SubsetCard(a * b, a + b);
      (|a * b| as real) / (|a + b| as real)
    else 0.0
  }

  /** Both overlaps are symmetric. */
  lemma OverlapsSymmetric(a: set<string>, b: set<string>)
    ensures CitationOverlap(a, b) == CitationOverlap(b, a)
    ensures KeywordOverlap(a, b) == KeywordOverlap(b, a)
  {
    assert a * b == b * a && a + b == b + a;
  }

  /** Two non-empty reference sets overlap fully exactly when one contains the
      other. */
  lemma {:induction false} CitationOverlapFull(a: set<string>, b: set<string>)
    requires a != {} && b != {}
    ensures CitationOverlap(a, b) == 1.0 <==> a <= b || b <= a
  {
    var i := a * b;
    SubsetCard(i, a);
    SubsetCard(i, b);
    var d := Min(|a|, |b|);
    assert CitationOverlap(a, b) == (|i| as real) / (d as real);
    if a <= b {
      assert i == a;
      SubsetCard(a, b);
    } else if b <= a {
      assert i == b;
      SubsetCard(b, a);
    } else {
      assert i != a && i != b;
      assert |i| < |a| && |i| < |b|;
      assert (|i| as real) < (d as real);
    }
  }

  /** Two keyword sets that are not both empty overlap fully exactly when they
      are equal. */
  lemma {:induction false} KeywordOverlapFull(a: set<string>, b: set<string>)
    requires a != {} || b != {}
    ensures KeywordOverlap(a, b) == 1.0 <==> a == b
  {
    var i := a * b;
    var u := a + b;
    SubsetCard(i, u);
    assert KeywordOverlap(a, b) == (|i| as real) / (|u| as real);
    if a == b {
      assert i == u;
    } else {
      assert (a - b) + (b - a) != {};
      var x :| x in (a - b) + (b - a);
      assert x in u && x !in i;
      assert |i| < |u|;
      assert (|i| as real) < (|u| as real);
    }
  }

  // ---------------------------------------------------------------------------
  // Matrices

  /** Every pair of embeddings can be compared by `cosine_sim` without numpy
      raising. */
  predicate AllComparable(embs: seq<seq<real>>, norm: seq<real> -> real)
  {
    forall i, j :: 0 <= i < |embs| && 0 <= j < |embs| ==> AiService.Comparable(embs[i], embs[j], norm)
  }

  function EmbeddingEntry(embs: seq<seq<real>>, norm: seq<real> -> real, i: nat, j: nat): real
    requires i < |embs| && j < |embs| && (i == j || AiService.Comparable(embs[i], embs[j], norm))
  {
    if i == j then 1.0 else AiService.CosineSim(embs[i], embs[j], norm)
  }

  function CitationEntry(refs: seq<set<string>>, i: nat, j: nat): (r: real)
    requires i < |refs| && j < |refs|
    ensures 0.0 <= r <= 1.0
    ensures i == j ==> r == 1.0
  {
    if i == j then 1.0 else CitationOverlap(refs[i], refs[j])
  }

  function KeywordEntry(kws: seq<set<string>>, i: nat, j: nat): (r: real)
    requires i < |kws| && j < |kws|
    ensures 0.0 <= r <= 1.0
    ensures i == j ==> r == 1.0
  {
    if i == j then 1.0 else KeywordOverlap(kws[i], kws[j])
  }

  /** The embedding matrix is symmetric and its off-diagonal entries are 0.0
      wherever either embedding is empty. */
  lemma EmbeddingSymmetric(embs: seq<seq<real>>, norm: seq<real> -> real, i: nat, j: nat)
    requires i < |embs| && j < |embs| && AllComparable(embs, norm)
    ensures EmbeddingEntry(embs, norm, i, j) == EmbeddingEntry(embs, norm, j, i)
    ensures i != j && (embs[i] == [] || embs[j] == []) ==> EmbeddingEntry(embs, norm, i, j) == 0.0
  {
    AiService.CosineSymmetric(embs[i], embs[j], norm);
  }

  /** The citation and keyword matrices are symmetric. */
  lemma OverlapMatricesSymmetric(refs: seq<set<string>>, kws: seq<set<string>>, i: nat, j: nat)
    requires i < |refs| && j < |refs| && |kws| == |refs|
    ensures CitationEntry(refs, i, j) == CitationEntry(refs, j, i)
    ensures KeywordEntry(kws, i, j) == KeywordEntry(kws, j, i)
  {
    OverlapsSymmetric(refs[i], refs[j]);
    OverlapsSymmetric(kws[i], kws[j]);
  }

  /** The loop filling the embedding similarity matrix. `ok` is false when
      `cosine_sim` raises on some pair, which ends the loop. */
  method EmbeddingMatrix(embs: seq<seq<real>>, norm: seq<real> -> real) returns (ok: bool, m: array2<real>)
    ensures fresh(m) && m.Length0 == |embs| && m.Length1 == |embs|
    ensures ok <==> AllComparable(embs, norm)
    ensures ok ==> forall i, j :: 0 <= i < |embs| && 0 <= j < |embs| ==> m[i, j] == EmbeddingEntry(embs, norm, i, j)
  {
    var n := |embs|;
    m := new real[n, n]((_, _) => 0.0);
    ok := true;
    for i := 0 to n
      invariant forall a, b :: 0 <= a < i && 0 <= b < n ==>
                  AiService.Comparable(embs[a], embs[b], norm) && m[a, b] == EmbeddingEntry(embs, norm, a, b)
    {
      for j := 0 to n
        invariant forall a, b :: 0 <= a < i && 0 <= b < n ==>
                    AiService.Comparable(embs[a], embs[b], norm) && m[a, b] == EmbeddingEntry(embs, norm, a, b)
        invariant forall b :: 0 <= b < j ==>
                    AiService.Comparable(embs[i], embs[b], norm) && m[i, b] == EmbeddingEntry(embs, norm, i, b)
      {
        if i == j {
          m[i, j] := 1.0;
        } else if AiService.Comparable(embs[i], embs[j], norm) {
          m[i, j] := AiService.CosineSim(embs[i], embs[j], norm);
        } else {
          ok := false;
          return;
        }
      }
    }
  }

  /** One cell of the overlap loop: the Szymkiewicz-Simpson overlap of the two
      papers' reference sets and the Jaccard index of their keyword sets. */
  method OverlapCell(refs: seq<set<string>>, kws: seq<set<string>>, i: nat, j: nat) returns (c: real, k: real)
    requires i < |refs| && j < |refs| && |kws| == |refs|
    ensures c == CitationEntry(refs, i, j) && k == KeywordEntry(kws, i, j)
  {
    c, k := 1.0, 1.0;
    if i != j {
      var aRefs := refs[i];
      var bRefs := refs[j];
      if aRefs != {} && bRefs != {} {
        var inter := aRefs * bRefs;
        var denom := Min(|aRefs|, |bRefs|);
        c := (|inter| as real) / (denom as real);
      } else {
        c := 0.0;
      }
      var aKw := kws[i];
      var bKw := kws[j];
      if aKw != {} || bKw != {} {
        k := (|aKw * bKw| as real) / (|aKw + bKw| as real);
      } else {
        k := 0.0;
      }
    }
  }

  /** The loop filling the citation and keyword overlap matrices. */
  method OverlapMatrices(refs: seq<set<string>>, kws: seq<set<string>>) returns (cit: array2<real>, kw: array2<real>)
    requires |kws| == |refs|
    ensures fresh(cit) && fresh(kw) && cit != kw
    ensures cit.Length0 == |refs| && cit.Length1 == |refs| && kw.Length0 == |refs| && kw.Length1 == |refs|
    ensures forall i, j :: 0 <= i < |refs| && 0 <= j < |refs| ==>
              cit[i, j] == CitationEntry(refs, i, j) && kw[i, j] == KeywordEntry(kws, i, j)
  {
    var n := |refs|;
    cit := new real[n, n]((_, _) => 0.0);
    kw := new real[n, n]((_, _) => 0.0);
    for i := 0 to n
      invariant forall a, b :: 0 <= a < i && 0 <= b < n ==>
                  cit[a, b] == CitationEntry(refs, a, b) && kw[a, b] == KeywordEntry(kws, a, b)
    {
      OverlapRow(cit, kw, refs, kws, i);
    }
  }

  /** The inner `for j in range(n)` loop: row `i` of both matrices is filled and
      every other row is left as it was. */
  method OverlapRow(cit: array2<real>, kw: array2<real>, refs: seq<set<string>>, kws: seq<set<string>>, i: nat)
    requires cit != kw && |kws| == |refs| && i < |refs|
    requires cit.Length0 == |refs| && cit.Length1 == |refs| && kw.Length0 == |refs| && kw.Length1 == |refs|
    modifies cit, kw
    ensures forall b :: 0 <= b < |refs| ==> cit[i, b] == CitationEntry(refs, i, b) && kw[i, b] == KeywordEntry(kws, i, b)
    ensures forall a, b :: 0 <= a < |refs| && a != i && 0 <= b < |refs| ==>
              cit[a, b] == old(cit[a, b]) && kw[a, b] == old(kw[a, b])
  {
    var n := |refs|;
    for j := 0 to n
      invariant forall b :: 0 <= b < j ==> cit[i, b] == CitationEntry(refs, i, b) && kw[i, b] == KeywordEntry(kws, i, b)
      invariant forall a, b :: 0 <= a < n && a != i && 0 <= b < n ==>
                  cit[a, b] == old(cit[a, b]) && kw[a, b] == old(kw[a, b])
    {
      var c, k := OverlapCell(refs, kws, i, j);
      cit[i, j] := c;
      kw[i, j] := k;
    }
  }
}
