/**
 * The novelty scorer (`NoveltyService`): semantic similarity of a paper to the
 * candidates the hybrid search finds for it, the overlap of its reference list
 * with theirs, and the normalised lexical entropy of its text, combined into one
 * clamped score.
 *
 * The sentence embedder is the parameter `encode` (None when it raises), the
 * search service is `search` (None when the search raises; `searchReady` is
 * false when the service failed to start), numpy's norm is `norm` and
 * `math.log2` is `log2`.
 */
module Novelty {
  import opened Py
  import opened Seqs
  import AiService

  // ---------------------------------------------------------------------------
  // Cosine

  /** `_cosine`: 0.0 when either embedding is missing or the product of the norms
      is 0; otherwise dot / (|a| |b|). numpy raises on two vectors of different
      lengths once the norms are non-zero: that is the `None` result. */
  function Cosine(a: Option<seq<real>>, b: Option<seq<real>>, norm: seq<real> -> real): (r: Option<real>)
    ensures a.None? || b.None? ==> r == Some(0.0)
    ensures a.Some? && b.Some? && AiService.NormProduct(a.value, b.value, norm) == 0.0 ==> r == Some(0.0)
    ensures r.None? <==> a.Some? && b.Some? && AiService.NormProduct(a.value, b.value, norm) != 0.0
                         && |a.value| != |b.value|
  {
    if a.None? || b.None? then Some(0.0)
    else
      var denom := AiService.NormProduct(a.value, b.value, norm);
      if denom == 0.0 then Some(0.0)
      else if |a.value| != |b.value| then None
      else Some(AiService.Dot(a.value, b.value) / denom)
  }

  /** On two present, non-empty vectors the novelty scorer's cosine fails exactly
      where the AI service's `cosine_sim` raises, and agrees with it elsewhere. */
  lemma CosineAgreesWithService(a: seq<real>, b: seq<real>, norm: seq<real> -> real)
    requires |a| > 0 && |b| > 0
    ensures Cosine(Some(a), Some(b), norm).None? <==> !AiService.Comparable(a, b, norm)
    ensures AiService.Comparable(a, b, norm) ==> Cosine(Some(a), Some(b), norm) == Some(AiService.CosineSim(a, b, norm))
  {
  }

  /** `_cosine` is symmetric, failures included. */
  lemma CosineSymmetric(a: Option<seq<real>>, b: Option<seq<real>>, norm: seq<real> -> real)
    ensures Cosine(a, b, norm) == Cosine(b, a, norm)
  {
    if a.Some? && b.Some? && |a.value| == |b.value| {
      AiService.DotSymmetric(a.value, b.value);
    }
  }

  // ---------------------------------------------------------------------------
  // Lexical entropy

  /** The whitespace-separated tokens, lower-cased; the emptiness test after
      trimming never drops a token, since `split()` yields non-empty runs of non-whitespace. */
  function Tokens(text: string): seq<string>
  {
    LowerAll(Words(text))
  }

  /** `log2` is positive from 2 on, as `math.log2` is: the vocabulary size it
      divides by is then never 0. */
  ghost predicate Log2Positive(log2: real -> real)
  {
    forall x :: x >= 2.0 ==> log2(x) > 0.0
  }

  /** `p * log2(p)` for `p = count / total`. */
  function Surprisal(count: nat, total: real, log2: real -> real): real
    requires total > 0.0
  {
    var p := count as real / total;
    p * log2(p)
  }

  /** The entropy sum over the dict's counts, in dict order: each count
      subtracts its share times the log of its share. */
  function EntropyAcc(items: seq<(string, nat)>, total: real, log2: real -> real): real
    requires total > 0.0
  {
    if items == [] then 0.0
    else EntropyAcc(items[..|items| - 1], total, log2) - Surprisal(items[|items| - 1].1, total, log2)
  }

  /** What `_entropy_norm(text)` returns. */
  function EntropyNormOf(text: string, log2: real -> real): real
    requires Log2Positive(log2)
  {
    if text == "" then 0.0
    else
      var toks := Tokens(text);
      if toks == [] then 0.0
      else
        var items := Tally(toks);
        if |items| <= 1 then 0.0
        else EntropyAcc(items, |toks| as real, log2) / log2(|items| as real)
  }

  /** The counting loop of `_entropy_norm`: each token's count goes up by one,
      starting from zero; `order` is the dict's key order. */
  method CountTokens(toks: seq<string>) returns (order: seq<string>, freq: map<string, nat>)
    ensures order == Distinct(toks)
    ensures forall w :: w in freq <==> w in order
    ensures forall w :: w in freq ==> freq[w] == Count(toks, w)
  {
    order, freq := [], map[];
    for i := 0 to |toks|
      invariant order == Distinct(toks[..i])
      invariant forall w :: w in freq <==> w in order
      invariant forall w :: w in freq ==> freq[w] == Count(toks[..i], w)
    {
      var t := toks[i];
      assert toks[..i + 1] == toks[..i] + [t];
      TallyStep(toks[..i], t, order, freq);
      if t !in freq {
        order := order + [t];
      }
      freq := freq[t := (if t in freq then freq[t] else 0) + 1];
    }
    assert toks[..|toks|] == toks;
  }

  /** The entropy loop: each count, in dict order, subtracts its surprisal. */
  method AccumulateEntropy(toks: seq<string>, order: seq<string>, freq: map<string, nat>,
                           log2: real -> real) returns (entropy: real)
    requires toks != [] && order == Distinct(toks)
    requires forall w :: w in order ==> w in freq && freq[w] == Count(toks, w)
    ensures entropy == EntropyAcc(Tally(toks), |toks| as real, log2)
  {
    ghost var items := Tally(toks);
    assert |items| == |order|;
    var total := |toks| as real;
    entropy := 0.0;
    for k := 0 to |order|
      invariant entropy == EntropyAcc(items[..k], total, log2)
    {
      var v := freq[order[k]];
      assert items[k] == (order[k], v);
      assert items[..k + 1][..k] == items[..k];
      entropy := entropy - Surprisal(v, total, log2);
    }
    assert items[..|order|] == items;
  }

  /** `_entropy_norm`: counts the lower-cased tokens in a dict, accumulates the
      Shannon entropy of their frequencies and divides by log2 of the vocabulary
      size; 0.0 for an empty text, no tokens or a vocabulary of at most one word. */
  method EntropyNorm(text: string, log2: real -> real) returns (e: real)
    requires Log2Positive(log2)
    ensures e == EntropyNormOf(text, log2)
  {
    if text == "" {
      return 0.0;
    }
    var toks := Tokens(text);
    if toks == [] {
      return 0.0;
    }
    var order, freq := CountTokens(toks);
    var entropy := AccumulateEntropy(toks, order, freq, log2);
    var vocabulary := |order|;
    if vocabulary <= 1 {
      return 0.0;
    }
    e := entropy / log2(vocabulary as real);
  }

  /** Lower-casing the text first does not change its entropy. */
  lemma EntropyCaseInsensitive(text: string, log2: real -> real)
    requires Log2Positive(log2)
    ensures EntropyNormOf(Lower(text), log2) == EntropyNormOf(text, log2)
  {
    WordsLower(text);
    var ws := Words(text);
    assert LowerAll(LowerAll(ws)) == LowerAll(ws) by {
      forall i | 0 <= i < |ws| ensures Lower(Lower(ws[i])) == Lower(ws[i]) {
        LowerIdempotent(ws[i]);
      }
    }
  }

  /** A text of whitespace only has entropy 0. */
  lemma EntropyOfBlank(text: string, log2: real -> real)
    requires Log2Positive(log2)
    requires forall i :: 0 <= i < |text| ==> IsSpace(text[i])
    ensures EntropyNormOf(text, log2) == 0.0
  {
    WordsOfBlank(text);
  }

  /** A text that repeats one word (up to case) has entropy 0. */
  lemma EntropyOfOneWord(text: string, log2: real -> real)
    requires forall i, j :: 0 <= i < |Words(text)| && 0 <= j < |Words(text)| ==>
               Lower(Words(text)[i]) == Lower(Words(text)[j])
    requires Log2Positive(log2)
    ensures EntropyNormOf(text, log2) == 0.0
  {
    var toks := Tokens(text);
    if toks != [] {
      DistinctOfConstant(toks);
    }
  }

  /** The distinct elements of a sequence whose elements are all equal. */
  lemma {:induction false} DistinctOfConstant<T>(s: seq<T>)
    requires forall i, j :: 0 <= i < |s| && 0 <= j < |s| ==> s[i] == s[j]
    ensures |Distinct(s)| <= 1
  {
    if |s| > 1 {
      var init := s[..|s| - 1];
      DistinctOfConstant(init);
      assert s[|s| - 1] == init[0];
      assert s[|s| - 1] in init;
    }
  }

  // ---------------------------------------------------------------------------
  // Candidates and their similarity

  /** The value of a hit's `references` or `citations`: a list of ids, or a
      string, which Python iterates one character at a time. */
  datatype RefValue = Items(items: seq<string>) | Text(text: string)

  /** A search hit as `score_paper` reads it; an absent key is None. */
  datatype Candidate = Candidate(id: Option<string>, paperId: Option<string>, doi: Option<string>,
                                 title: Option<string>, abstractText: Option<string>,
                                 references: Option<RefValue>, citations: Option<RefValue>)

  /** One entry of `similarities`. */
  datatype Similar = Similar(id: string, title: Option<string>, similarity: real)

  /** The query sent to the hybrid search: the title and the first 300
      characters of the abstract. */
  function Query(title: string, abstractText: string): (q: string)
    ensures StartsWith(q, title + " ")
    ensures |q| <= |title| + 1 + 300
  {
    title + " " + Take(abstractText, 300)
  }

  /** The candidates: the search's hits, or [] when the service is unavailable or
      the search raises. */
  function Candidates(title: string, abstractText: string, topK: int, searchReady: bool,
                      search: (string, int) -> Option<seq<Candidate>>): (cs: seq<Candidate>)
    ensures !searchReady ==> cs == []
    ensures searchReady && search(Query(title, abstractText), topK).Some? ==>
              cs == search(Query(title, abstractText), topK).value
    ensures searchReady && search(Query(title, abstractText), topK).None? ==> cs == []
  {
    if !searchReady then []
    else match search(Query(title, abstractText), topK)
      case Some(hits) => hits
      case None => []
  }

  /** A candidate's id: the first truthy of id, paper id and DOI, else the
      title as Python's `str` prints it. */
  function CandidateId(c: Candidate): string
  {
    Str(Or(Or(Or(c.id, c.paperId), c.doi), c.title))
  }

  /** The text embedded for a candidate: title, newline, abstract. */
  function CandidateText(c: Candidate): string
  {
    OrEmpty(c.title) + "\n" + OrEmpty(c.abstractText)
  }

  /** A candidate's similarity: the cosine of the two embeddings, 0.0 when either
      is missing; None when the cosine raises. */
  function CandidateSimilarity(emb: Option<seq<real>>, c: Candidate,
                               encode: string -> Option<seq<real>>,
                               norm: seq<real> -> real): Option<real>
  {
    var cEmb := encode(CandidateText(c));
    if emb.Some? && cEmb.Some? then Cosine(emb, cEmb, norm) else Some(0.0)
  }

  predicate AllScorable(emb: Option<seq<real>>, cands: seq<Candidate>,
                        encode: string -> Option<seq<real>>, norm: seq<real> -> real)
  {
    forall k :: 0 <= k < |cands| ==> CandidateSimilarity(emb, cands[k], encode, norm).Some?
  }

  /** The `similarities` list: one entry per candidate, or [] once any cosine
      raised (the whole loop sits in one `try`). */
  function Similarities(emb: Option<seq<real>>, cands: seq<Candidate>,
                        encode: string -> Option<seq<real>>, norm: seq<real> -> real): (sims: seq<Similar>)
    ensures AllScorable(emb, cands, encode, norm) ==> |sims| == |cands|
    ensures AllScorable(emb, cands, encode, norm) ==> forall k :: 0 <= k < |sims| ==>
              sims[k] == Similar(CandidateId(cands[k]), cands[k].title,
                                 CandidateSimilarity(emb, cands[k], encode, norm).value)
    ensures !AllScorable(emb, cands, encode, norm) ==> sims == []
  {
    if AllScorable(emb, cands, encode, norm) then
      seq(|cands|, k requires 0 <= k < |cands| && AllScorable(emb, cands, encode, norm) =>
        Similar(CandidateId(cands[k]), cands[k].title, CandidateSimilarity(emb, cands[k], encode, norm).value))
    else []
  }

  /** The largest similarity, or 0.0 when there are none. */
  function MaxSimilarity(sims: seq<Similar>): (m: real)
    ensures sims == [] ==> m == 0.0
    ensures forall k :: 0 <= k < |sims| ==> sims[k].similarity <= m
    ensures sims != [] ==> exists k :: 0 <= k < |sims| && sims[k].similarity == m
  {
    if sims == [] then 0.0
    else if |sims| == 1 then sims[0].similarity
    else
      var rest := MaxSimilarity(sims[1..]);
      assert forall k :: 1 <= k < |sims| ==> sims[k] == sims[1..][k - 1];
      if sims[0].similarity >= rest then sims[0].similarity else rest
  }

  /** How many similarities reach 0.7. */
  function SimilarCount(sims: seq<Similar>): (n: nat)
    ensures n <= |sims|
    ensures n == 0 <==> forall k :: 0 <= k < |sims| ==> sims[k].similarity < 0.7
    ensures n == |sims| <==> forall k :: 0 <= k < |sims| ==> sims[k].similarity >= 0.7
  {
    if sims == [] then 0
    else
      var rest := SimilarCount(sims[1..]);
      assert forall k :: 1 <= k < |sims| ==> sims[k] == sims[1..][k - 1];
      (if sims[0].similarity >= 0.7 then 1 else 0) + rest
  }

  function SimKey(s: Similar): real
  {
    s.similarity
  }

  // ---------------------------------------------------------------------------
  // Reference overlap

  /** `str(x).strip().lower()` */
  function RefKey(r: string): string
  {
    Lower(Strip(r))
  }

  /** The paper's references as a set: non-empty entries, trimmed and lower-cased. */
  function RefSet(references: seq<string>): set<string>
  {
    set r | r in references && r != "" :: RefKey(r)
  }

  /** What iterating a reference value yields: the list's items, or the
      string's characters as one-character strings; nothing when absent. */
  function RefItems(v: Option<RefValue>): (items: seq<string>)
    ensures v.Some? && v.value.Text? ==>
              |items| == |v.value.text| && forall i :: 0 <= i < |items| ==> items[i] == [v.value.text[i]]
  {
    match v
    case None => []
    case Some(Items(items)) => items
    case Some(Text(text)) => seq(|text|, i requires 0 <= i < |text| => [text[i]])
  }

  /** The hit's references, else its citations, else nothing (the first truthy
      value), as a set of keys; empty entries are skipped. */
  function CandidateRefSet(c: Candidate): set<string>
  {
    var refs := if RefItems(c.references) != [] then RefItems(c.references) else RefItems(c.citations);
    set x | x in refs && x != "" :: RefKey(x)
  }

  /** A hit whose `references` is a non-empty string contributes the keys of its
      single characters. */
  lemma CandidateRefSetOfText(c: Candidate)
    requires c.references.Some? && c.references.value.Text? && c.references.value.text != ""
    ensures var t := c.references.value.text;
            CandidateRefSet(c) == set i | 0 <= i < |t| :: RefKey([t[i]])
  {
    var t := c.references.value.text;
    var items := RefItems(c.references);
    assert items[0] == [t[0]];
    forall x | x in CandidateRefSet(c) ensures x in set i | 0 <= i < |t| :: RefKey([t[i]]) {
      var y :| y in items && y != "" && x == RefKey(y);
      var i :| 0 <= i < |items| && items[i] == y;
      assert x == RefKey([t[i]]);
    }
    forall i | 0 <= i < |t| ensures RefKey([t[i]]) in CandidateRefSet(c) {
      assert items[i] == [t[i]] && items[i] in items;
    }
  }

  /** The candidates' reference sets, in candidate order. */
  function CandidateRefSets(cands: seq<Candidate>): (sets: seq<set<string>>)
    ensures |sets| == |cands| && forall k :: 0 <= k < |cands| ==> sets[k] == CandidateRefSet(cands[k])
  {
    seq(|cands|, k requires 0 <= k < |cands| => CandidateRefSet(cands[k]))
  }

  /** The largest `len(refs_set & cset)` over the non-empty sets `csets`. */
  function MaxOverlap(refs: set<string>, csets: seq<set<string>>): nat
  {
    if csets == [] then 0
    else
      var before := MaxOverlap(refs, csets[..|csets| - 1]);
      var last := csets[|csets| - 1];
      if last == {} || |refs * last| <= before then before else |refs * last|
  }

  /** `max_overlap` bounds the overlap with every non-empty reference set and is 0
      or attained by one. */
  lemma {:induction false} MaxOverlapIsMax(refs: set<string>, csets: seq<set<string>>)
    ensures forall k :: 0 <= k < |csets| && csets[k] != {} ==> |refs * csets[k]| <= MaxOverlap(refs, csets)
    ensures MaxOverlap(refs, csets) == 0 ||
            exists k :: 0 <= k < |csets| && csets[k] != {} && |refs * csets[k]| == MaxOverlap(refs, csets)
  {
    if csets != [] {
      var init := csets[..|csets| - 1];
      MaxOverlapIsMax(refs, init);
      assert forall k :: 0 <= k < |init| ==> init[k] == csets[k];
      var last := csets[|csets| - 1];
      if last != {} && |refs * last| > MaxOverlap(refs, init) {
        assert |refs * csets[|csets| - 1]| == MaxOverlap(refs, csets);
      } else if MaxOverlap(refs, init) != 0 {
        var k :| 0 <= k < |init| && init[k] != {} && |refs * init[k]| == MaxOverlap(refs, init);
        assert csets[k] == init[k];
      }
    }
  }

  /** The overlap score never exceeds the number of references; it is bounded
      by the size of the paper's own reference set. */
  lemma {:induction false} MaxOverlapBounded(refs: set<string>, csets: seq<set<string>>)
    ensures MaxOverlap(refs, csets) <= |refs|
  {
    if csets != [] {
      MaxOverlapBounded(refs, csets[..|csets| - 1]);
      var last := csets[|csets| - 1];
      assert refs == (refs - last) + (refs * last);
      assert (refs - last) * (refs * last) == {};
    }
  }

  /** `min(1.0, max_overlap / max(1, len(references)))`: the divisor is the raw
      list length, empty entries included. */
  function OverlapScore(maxOverlap: nat, referenceCount: nat): (s: real)
    ensures 0.0 <= s <= 1.0
    ensures maxOverlap == 0 ==> s == 0.0
    ensures maxOverlap >= Max(1, referenceCount) ==> s == 1.0
  {
    var q := maxOverlap as real / Max(1, referenceCount) as real;
    QuotientBounds(maxOverlap as real, Max(1, referenceCount) as real);
    if q <= 1.0 then q else 1.0
  }

  lemma QuotientBounds(x: real, d: real)
    requires x >= 0.0 && d > 0.0
    ensures x / d >= 0.0
    ensures x >= d ==> x / d >= 1.0
  {
  }

  // ---------------------------------------------------------------------------
  // Combination

  function Clamp01(x: real): (r: real)
    ensures 0.0 <= r <= 1.0
    ensures 0.0 <= x <= 1.0 ==> r == x
    ensures x < 0.0 ==> r == 0.0
    ensures x > 1.0 ==> r == 1.0
  {
    if x < 0.0 then 0.0 else if x > 1.0 then 1.0 else x
  }

  /** `(1 - max_similarity) * 0.6 + (1 - overlap_score) * 0.2 + entropy_norm * 0.2`,
      clamped to [0, 1]. */
  function Combine(maxSimilarity: real, overlapScore: real, entropyNorm: real): real
  {
    Clamp01((1.0 - maxSimilarity) * 0.6 + (1.0 - overlapScore) * 0.2 + entropyNorm * 0.2)
  }

  /** More similarity or more reference overlap never raises novelty; more
      lexical entropy never lowers it; the result stays in [0, 1]. */
  lemma CombineMonotone(ms: real, ms': real, os: real, os': real, en: real, en': real)
    requires ms <= ms' && os <= os' && en' <= en
    ensures Combine(ms', os', en') <= Combine(ms, os, en)
    ensures 0.0 <= Combine(ms, os, en) <= 1.0
  {
  }

  /** With every component in [0, 1] the weighted sum needs no clamping. */
  lemma CombineUnclamped(ms: real, os: real, en: real)
    requires 0.0 <= ms <= 1.0 && 0.0 <= os <= 1.0 && 0.0 <= en <= 1.0
    ensures Combine(ms, os, en) == (1.0 - ms) * 0.6 + (1.0 - os) * 0.2 + en * 0.2
  {
  }

  // ---------------------------------------------------------------------------
  // Scoring

  /** The result of `score_paper`, before `round(..., 4)`. */
  datatype Score = Score(novelty: real, maxSimilarity: real, similarCount: nat, maxOverlap: nat,
                         overlapScore: real, entropyNorm: real, similarExamples: seq<Similar>)

  /** What `score_paper` returns. */
  function ScoreOf(title: string, abstractText: string, references: seq<string>, topK: int,
                   encode: string -> Option<seq<real>>, searchReady: bool,
                   search: (string, int) -> Option<seq<Candidate>>,
                   norm: seq<real> -> real, log2: real -> real): Score
    requires Log2Positive(log2)
  {
    var cands := Candidates(title, abstractText, topK, searchReady, search);
    var sims := Similarities(encode(title + "\n" + abstractText), cands, encode, norm);
    var ms := MaxSimilarity(sims);
    var overlapUsed := references != [] && cands != [];
    var mo := if overlapUsed then MaxOverlap(RefSet(references), CandidateRefSets(cands)) else 0;
    var os := if overlapUsed then OverlapScore(mo, |references|) else 0.0;
    var en := EntropyNormOf(if abstractText != "" then abstractText else title, log2);
    Score(Combine(ms, os, en), ms, SimilarCount(sims), mo, os, en,
          Take(SortDescBy(sims, SimKey), 10))
  }

  /** The similarity loop of `score_paper`: one entry per candidate, and [] as
      soon as a cosine raises. */
  method ScoreCandidates(emb: Option<seq<real>>, cands: seq<Candidate>,
                         encode: string -> Option<seq<real>>, norm: seq<real> -> real)
    returns (sims: seq<Similar>)
    ensures sims == Similarities(emb, cands, encode, norm)
  {
    sims := [];
    var failed := false;
    var i := 0;
    while i < |cands| && !failed
      invariant 0 <= i <= |cands|
      invariant !failed ==> AllScorable(emb, cands[..i], encode, norm)
      invariant !failed ==> sims == Similarities(emb, cands[..i], encode, norm)
      invariant failed ==> !AllScorable(emb, cands, encode, norm)
    {
      var c := cands[i];
      var sim := CandidateSimilarity(emb, c, encode, norm);
      assert cands[..i + 1] == cands[..i] + [c];
      if sim.None? {
        failed := true;
      } else {
        sims := sims + [Similar(CandidateId(c), c.title, sim.value)];
      }
      i := i + 1;
    }
    if failed {
      sims := [];
    } else {
      assert cands[..i] == cands;
    }
  }

  /** The overlap loop of `score_paper`: skips candidates without references and
      keeps the largest intersection. */
  method LargestOverlap(refs: set<string>, cands: seq<Candidate>) returns (maxOverlap: nat)
    ensures maxOverlap == MaxOverlap(refs, CandidateRefSets(cands))
  {
    ghost var csets := CandidateRefSets(cands);
    maxOverlap := 0;
    for j := 0 to |cands|
      invariant maxOverlap == MaxOverlap(refs, csets[..j])
    {
      var cset := CandidateRefSet(cands[j]);
      assert csets[..j + 1][..j] == csets[..j];
      if cset == {} {
        continue;
      }
      var overlap := |refs * cset|;
      if overlap > maxOverlap {
        maxOverlap := overlap;
      }
    }
    assert csets[..|cands|] == csets;
  }

  /** `score_paper`: embeds the paper, asks the search for `top_k` candidates,
      scores each candidate by cosine similarity, takes the largest reference
      overlap, the entropy of the abstract (else the title) and combines them. */
  method ScorePaper(title: string, abstractText: string, references: seq<string>, topK: int,
                    encode: string -> Option<seq<real>>, searchReady: bool,
                    search: (string, int) -> Option<seq<Candidate>>,
                    norm: seq<real> -> real, log2: real -> real) returns (r: Score)
    requires Log2Positive(log2)
    ensures r == ScoreOf(title, abstractText, references, topK, encode, searchReady, search, norm, log2)
  {
    var emb := encode(title + "\n" + abstractText);
    var cands := Candidates(title, abstractText, topK, searchReady, search);
    var sims := ScoreCandidates(emb, cands, encode, norm);
    var ms := MaxSimilarity(sims);
    var count := SimilarCount(sims);

    var maxOverlap := 0;
    var overlapScore := 0.0;
    if references != [] && cands != [] {
      maxOverlap := LargestOverlap(RefSet(references), cands);
      overlapScore := OverlapScore(maxOverlap, |references|);
    }

    var en := EntropyNorm(if abstractText != "" then abstractText else title, log2);
    r := Score(Combine(ms, overlapScore, en), ms, count, maxOverlap, overlapScore, en,
               Take(SortDescBy(sims, SimKey), 10));
  }

  /** The bounds `score_paper` guarantees: novelty and the overlap score lie in
      [0, 1], the similar count never exceeds the candidates scored, and the
      examples are at most 10 of the scored candidates, most similar first. */
  lemma ScoreBounds(title: string, abstractText: string, references: seq<string>, topK: int,
                    encode: string -> Option<seq<real>>, searchReady: bool,
                    search: (string, int) -> Option<seq<Candidate>>,
                    norm: seq<real> -> real, log2: real -> real)
    requires Log2Positive(log2)
    ensures var s := ScoreOf(title, abstractText, references, topK, encode, searchReady, search, norm, log2);
            var cands := Candidates(title, abstractText, topK, searchReady, search);
            var sims := Similarities(encode(title + "\n" + abstractText), cands, encode, norm);
            && 0.0 <= s.novelty <= 1.0
            && 0.0 <= s.overlapScore <= 1.0
            && s.similarCount <= |sims| <= |cands|
            && |s.similarExamples| == Min(10, |sims|)
            && SortedDesc(s.similarExamples, SimKey)
            && (forall e :: e in s.similarExamples ==> e in sims)
            && (references == [] || cands == [] ==> s.maxOverlap == 0 && s.overlapScore == 0.0)
  {
    var cands := Candidates(title, abstractText, topK, searchReady, search);
    var sims := Similarities(encode(title + "\n" + abstractText), cands, encode, norm);
    var sorted := SortDescBy(sims, SimKey);
    SortDescByFacts(sims, SimKey);
    SortDescByLength(sims, SimKey);
    PermutationKeepsElements(sorted, sims);
    var ex := Take(sorted, 10);
    forall e | e in ex ensures e in sims {
      assert e in sorted;
    }
    forall a, b | 0 <= a < b < |ex| ensures SimKey(ex[a]) >= SimKey(ex[b]) {
      assert ex[a] == sorted[a] && ex[b] == sorted[b];
    }
  }

  /** Sorting by similarity puts a maximal entry first, and no entry exceeds the
      maximum. */
  lemma SortedAttainsMax(sims: seq<Similar>)
    ensures var sorted := SortDescBy(sims, SimKey);
            && (forall e :: e in sorted ==> e.similarity <= MaxSimilarity(sims))
            && (sorted != [] ==> sorted[0].similarity == MaxSimilarity(sims))
  {
    var sorted := SortDescBy(sims, SimKey);
    var m := MaxSimilarity(sims);
    SortDescByFacts(sims, SimKey);
    PermutationKeepsElements(sorted, sims);
    forall e | e in sorted ensures e.similarity <= m {
      assert e in sims;
    }
    if sorted != [] {
      var k :| 0 <= k < |sims| && sims[k].similarity == m;
      assert sims[k] in sorted;
      var j :| 0 <= j < |sorted| && sorted[j] == sims[k];
      assert SimKey(sorted[0]) >= SimKey(sorted[j]);
    }
  }

  /** Every example's similarity is at most the reported maximum, and when there
      was anything to compare the first example attains it. */
  lemma ExamplesAttainMax(title: string, abstractText: string, references: seq<string>, topK: int,
                          encode: string -> Option<seq<real>>, searchReady: bool,
                          search: (string, int) -> Option<seq<Candidate>>,
                          norm: seq<real> -> real, log2: real -> real)
    requires Log2Positive(log2)
    ensures var s := ScoreOf(title, abstractText, references, topK, encode, searchReady, search, norm, log2);
            && (forall e :: e in s.similarExamples ==> e.similarity <= s.maxSimilarity)
            && (s.similarExamples != [] ==> s.similarExamples[0].similarity == s.maxSimilarity)
  {
    var cands := Candidates(title, abstractText, topK, searchReady, search);
    var sims := Similarities(encode(title + "\n" + abstractText), cands, encode, norm);
    var sorted := SortDescBy(sims, SimKey);
    SortedAttainsMax(sims);
    TakePrefix(sorted, 10);
    var ex := Take(sorted, 10);
    forall e | e in ex ensures e in sorted {
      var i :| 0 <= i < |ex| && ex[i] == e;
      assert sorted[i] == e;
    }
    if ex != [] {
      assert ex[0] == sorted[0];
    }
  }
}
