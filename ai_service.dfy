/**
 * The AI feature service: frequency-based keyword extraction, the guards
 * around the summariser, the question-answering fallback, the lazily loaded
 * sentence embedder and cosine similarity.
 *
 * The summariser, the question-answering pipeline and the embedder are
 * external models; they appear here as parameters (their output, or None
 * when the call raised). numpy's vector norm is a parameter `norm` as well.
 */
module AiService {
  import opened Py
  import opened Seqs

  // ---------------------------------------------------------------------------
  // Summaries

  /** `generate_summary`: a text with fewer whitespace tokens than `minLength`
      comes back unchanged; otherwise the summariser's output, or, when the
      summariser raises (`None`), the first `maxLength * 10` characters. */
  function GenerateSummary(text: string, maxLength: int, minLength: int,
                           summarizer: (string, int, int) -> Option<string>): (r: string)
    ensures |Words(text)| < minLength ==> r == text
    ensures |Words(text)| >= minLength && summarizer(text, maxLength, minLength).Some? ==>
              r == summarizer(text, maxLength, minLength).value
    ensures |Words(text)| >= minLength && summarizer(text, maxLength, minLength).None? ==>
              |r| <= |text| && r == text[..|r|] && (maxLength >= 0 ==> |r| == Min(maxLength * 10, |text|))
  {
    if |Words(text)| < minLength then text
    else match summarizer(text, maxLength, minLength)
      case Some(summary) => summary
      case None => Take(text, maxLength * 10)
  }

  // ---------------------------------------------------------------------------
  // Question answering

  datatype Answer = Answer(answer: string, score: real, start: int, end: int)

  /** `answer_question`: the pipeline's answer, or the fixed fallback when it raises. */
  function AnswerQuestion(question: string, context: string, pipeline: Option<Answer>): (r: Answer)
    ensures pipeline.Some? ==> r == pipeline.value
    ensures pipeline.None? ==> r.answer == "Unable to answer this question." && r.score == 0.0
                               && r.start == 0 && r.end == 0
  {
    match pipeline
    case Some(a) => a
    case None => Answer("Unable to answer this question.", 0.0, 0, 0)
  }

  // ---------------------------------------------------------------------------
  // Keywords

  /** The words longer than three characters, in order: those the frequency count looks at. */
  function LongTokens(words: seq<string>): seq<string>
  {
    if words == [] then []
    else
      var w := words[|words| - 1];
      LongTokens(words[..|words| - 1]) + (if |w| > 3 then [w] else [])
  }

  lemma {:induction false} LongTokensAreLong(words: seq<string>)
    ensures forall w :: w in LongTokens(words) ==> w in words && |w| > 3
  {
    if words != [] {
      LongTokensAreLong(words[..|words| - 1]);
      assert forall w :: w in words[..|words| - 1] ==> w in words;
    }
  }

  /** The tokens `extract_keywords` counts: lower-cased whitespace tokens longer than 3. */
  function KeywordTokens(text: string): seq<string>
  {
    LongTokens(Words(Lower(text)))
  }

  /** The frequency dict as (word, count) items, in insertion (first-occurrence) order. */
  function KeywordTally(text: string): (items: seq<(string, nat)>)
  {
    Tally(KeywordTokens(text))
  }

  function FreqKey(item: (string, nat)): real
  {
    item.1 as real
  }

  /** The items sorted by `sorted(..., key=count, reverse=True)`. */
  function RankedKeywords(text: string): seq<(string, nat)>
  {
    SortDescBy(KeywordTally(text), FreqKey)
  }

  /** The keywords `extract_keywords(text, top_n)` returns. */
  function Keywords(text: string, topN: int): seq<string>
  {
    Take(Firsts(RankedKeywords(text)), topN)
  }

  /** `extract_keywords`: counts lower-cased tokens longer than 3 characters in a
      dict, sorts the items by count (largest first, stably) and keeps `top_n`. */
  method ExtractKeywords(text: string, topN: int) returns (r: seq<string>)
    ensures r == Keywords(text, topN)
  {
    var words := Words(Lower(text));
    var order: seq<string> := [];
    var freq: map<string, nat> := map[];
    for i := 0 to |words|
      invariant order == Distinct(LongTokens(words[..i]))
      invariant forall w :: w in freq <==> w in order
      invariant forall w :: w in freq ==> freq[w] == Count(LongTokens(words[..i]), w)
    {
      var w := words[i];
      assert words[..i + 1] == words[..i] + [w];
      assert words[..i + 1][..i] == words[..i];
      ghost var before := LongTokens(words[..i]);
      if |w| > 3 {
        assert LongTokens(words[..i + 1]) == before + [w];
        TallyStep(before, w, order, freq);
        if w !in freq {
          order := order + [w];
        }
        freq := freq[w := (if w in freq then freq[w] else 0) + 1];
      } else {
        assert LongTokens(words[..i + 1]) == before;
      }
    }
    assert words[..|words|] == words;
    var items := seq(|order|, k requires 0 <= k < |order| => (order[k], freq[order[k]]));
    assert items == KeywordTally(text);
    r := Take(Firsts(SortDescBy(items, FreqKey)), topN);
  }

  lemma TallyItems(text: string)
    ensures forall p :: p in KeywordTally(text) ==> p.1 == Count(KeywordTokens(text), p.0)
    ensures Firsts(KeywordTally(text)) == Distinct(KeywordTokens(text))
  {
  }

  /** Every keyword is a lower-cased whitespace token of the text longer than 3
      characters. */
  lemma KeywordsAreLongTokens(text: string, topN: int)
    ensures forall w :: w in Keywords(text, topN) ==> w in Words(Lower(text)) && |w| > 3
  {
    var tally := KeywordTally(text);
    var ranked := RankedKeywords(text);
    var r := Keywords(text, topN);
    SortDescByFacts(tally, FreqKey);
    PermutationKeepsElements(tally, ranked);
    LongTokensAreLong(Words(Lower(text)));
    TallyItems(text);
    forall w | w in r ensures w in Words(Lower(text)) && |w| > 3 {
      var i :| 0 <= i < |r| && r[i] == w;
      assert ranked[i] in tally;
      var k :| 0 <= k < |tally| && tally[k] == ranked[i];
      assert w == Distinct(KeywordTokens(text))[k];
    }
  }

  lemma TallyNoDuplicates(text: string)
    ensures NoDuplicates(KeywordTally(text))
  {
    var tally := KeywordTally(text);
    var order := Distinct(KeywordTokens(text));
    forall a, b | 0 <= a < b < |tally| ensures tally[a] != tally[b] {
      assert tally[a].0 == order[a] && tally[b].0 == order[b];
    }
  }

  /** Keywords are distinct. */
  lemma KeywordsDistinct(text: string, topN: int)
    ensures NoDuplicates(Keywords(text, topN))
  {
    var tally := KeywordTally(text);
    var ranked := RankedKeywords(text);
    var r := Keywords(text, topN);
    SortDescByFacts(tally, FreqKey);
    PermutationKeepsElements(tally, ranked);
    TallyNoDuplicates(text);
    PermutationNoDuplicates(tally, ranked);
    forall i, j | 0 <= i < j < |r| ensures r[i] != r[j] {
      assert ranked[i] != ranked[j];
      assert ranked[i] in tally && ranked[j] in tally;
      if r[i] == r[j] {
        TallyKeyUnique(text, ranked[i], ranked[j]);
      }
    }
  }

  /** With `top_n >= 0` there are exactly `min(top_n, number of distinct
      counted tokens)` keywords. */
  lemma KeywordsCount(text: string, topN: int)
    requires topN >= 0
    ensures |Keywords(text, topN)| == Min(topN, |Distinct(KeywordTokens(text))|)
  {
    SortDescByLength(KeywordTally(text), FreqKey);
  }

  lemma TallyKeyUnique(text: string, p: (string, nat), q: (string, nat))
    requires p in KeywordTally(text) && q in KeywordTally(text) && p.0 == q.0
    ensures p == q
  {
    TallyItems(text);
  }

  /** Keywords come in non-increasing order of frequency, and words of equal
      frequency keep their first-occurrence order (the sort is stable and the
      dict is insertion-ordered). */
  lemma KeywordsOrder(text: string, topN: int)
    ensures forall i, j :: 0 <= i < j < |Keywords(text, topN)| ==>
              Count(KeywordTokens(text), Keywords(text, topN)[i])
              >= Count(KeywordTokens(text), Keywords(text, topN)[j])
    ensures Keywords(text, topN) == Take(Firsts(RankedKeywords(text)), topN)
    ensures forall v :: WithKey(RankedKeywords(text), FreqKey, v) == WithKey(KeywordTally(text), FreqKey, v)
  {
    var tally := KeywordTally(text);
    var ranked := RankedKeywords(text);
    var r := Keywords(text, topN);
    SortDescByFacts(tally, FreqKey);
    PermutationKeepsElements(tally, ranked);
    TallyItems(text);
    forall i, j | 0 <= i < j < |r|
      ensures Count(KeywordTokens(text), r[i]) >= Count(KeywordTokens(text), r[j])
    {
      assert ranked[i] in tally && ranked[j] in tally;
      assert FreqKey(ranked[i]) >= FreqKey(ranked[j]);
    }
  }

  /** `auto_tag_paper`: the top 5 keywords of "title. abstract". */
  method AutoTagPaper(title: string, abstractText: string) returns (tags: seq<string>)
    ensures tags == Keywords(title + ". " + abstractText, 5)
    ensures |tags| <= 5
  {
    tags := ExtractKeywords(title + ". " + abstractText, 5);
  }

  // ---------------------------------------------------------------------------
  // Vectors

  function Dot(a: seq<real>, b: seq<real>): real
    requires |a| == |b|
  {
    if a == [] then 0.0 else a[0] * b[0] + Dot(a[1..], b[1..])
  }

  function Zeros(n: nat): (v: seq<real>)
    ensures |v| == n && forall k :: 0 <= k < n ==> v[k] == 0.0
  {
    seq(n, _ => 0.0)
  }

  /** The inputs `cosine_sim` answers without numpy raising: one side empty, a
      zero product of the norms (checked before the dot product), or both of
      one length. */
  predicate Comparable(a: seq<real>, b: seq<real>, norm: seq<real> -> real)
  {
    |a| == 0 || |b| == 0 || NormProduct(a, b, norm) == 0.0 || |a| == |b|
  }

  /** `np.linalg.norm(a) * np.linalg.norm(b)` */
  function NormProduct(a: seq<real>, b: seq<real>, norm: seq<real> -> real): real
  {
    norm(a) * norm(b)
  }

  /** `cosine_sim`: 0.0 when either vector is empty or the product of the norms
      is 0; otherwise dot / (|a| |b|). */
  function CosineSim(a: seq<real>, b: seq<real>, norm: seq<real> -> real): (r: real)
    requires Comparable(a, b, norm)
    ensures (|a| == 0 || |b| == 0) ==> r == 0.0
    ensures NormProduct(a, b, norm) == 0.0 ==> r == 0.0
  {
    if |a| == 0 || |b| == 0 then 0.0
    else
      var denom := NormProduct(a, b, norm);
      if denom == 0.0 then 0.0 else Dot(a, b) / denom
  }

  /** `norm` is the Euclidean norm on `v` (over the reals). */
  predicate EuclideanOn(norm: seq<real> -> real, v: seq<real>)
  {
    norm(v) >= 0.0 && norm(v) * norm(v) == Dot(v, v)
  }

  lemma {:induction false} DotSymmetric(a: seq<real>, b: seq<real>)
    requires |a| == |b|
    ensures Dot(a, b) == Dot(b, a)
  {
    if a != [] {
      DotSymmetric(a[1..], b[1..]);
    }
  }

  /** Cosine similarity is symmetric. */
  lemma CosineSymmetric(a: seq<real>, b: seq<real>, norm: seq<real> -> real)
    requires Comparable(a, b, norm)
    ensures CosineSim(a, b, norm) == CosineSim(b, a, norm)
  {
    if |a| != 0 && |b| != 0 && NormProduct(a, b, norm) != 0.0 {
      DotSymmetric(a, b);
    }
  }

  /** With an exact Euclidean norm, a non-zero vector has similarity 1 with itself. */
  lemma CosineSelf(a: seq<real>, norm: seq<real> -> real)
    requires EuclideanOn(norm, a) && Dot(a, a) != 0.0
    ensures CosineSim(a, a, norm) == 1.0
  {
    var d := norm(a) * norm(a);
    assert d == Dot(a, a) && d != 0.0 && |a| != 0;
    assert Dot(a, a) / d == 1.0;
  }

  // ---------------------------------------------------------------------------
  // The service object and its lazily loaded embedder

  class AiFeatureService {
    /** Whether the sentence embedder is loaded (`self.embedder is not None`). */
    var embedderLoaded: bool
    /** `settings.VECTOR_DIMENSION`. */
    const vectorDimension: nat

    /** `__init__`: tries to load the embedder; `loads` says whether that worked. */
    constructor (vectorDimension: nat, loads: bool)
      ensures this.vectorDimension == vectorDimension && embedderLoaded == loads
    {
      this.vectorDimension := vectorDimension;
      embedderLoaded := loads;
    }

    /** `embed_texts`: [] for no texts; otherwise a missing embedder is loaded
        first, and if that fails every text gets a zero vector of the configured
        dimension; a loaded embedder encodes the batch (`encode`). */
    method EmbedTexts(texts: seq<string>, loadSucceeds: bool,
                      encode: seq<string> -> seq<seq<real>>) returns (r: seq<seq<real>>)
      modifies this
      ensures texts == [] ==> r == [] && embedderLoaded == old(embedderLoaded)
      ensures texts != [] && !old(embedderLoaded) && !loadSucceeds ==>
                !embedderLoaded && |r| == |texts|
                && forall k :: 0 <= k < |r| ==> r[k] == Zeros(vectorDimension)
      ensures texts != [] && (old(embedderLoaded) || loadSucceeds) ==>
                embedderLoaded && r == encode(texts)
    {
      if texts == [] {
        return [];
      }
      if !embedderLoaded {
        if loadSucceeds {
          embedderLoaded := true;
        } else {
          return seq(|texts|, _ => Zeros(vectorDimension));
        }
      }
      r := encode(texts);
    }
  }
}
