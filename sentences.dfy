/**
 * The comparison points of the paper-comparison endpoint: the generated
 * comparison is cut into sentences, and each sentence lists the papers whose
 * embedding is close enough to its own (cosine similarity at least 0.45),
 * each with up to three of the paper's references as examples.
 *
 * The splitting pattern `\n|\r|(?<=[.?!])\s+` is stated directly: a line
 * feed or carriage return on its own, or a maximal run of whitespace that
 * follows '.', '?' or '!'. Python's set order, behind `list(refs)[:3]`, is a
 * parameter `order`.
 */
module Sentences {
  import opened Py
  import AiService
  import opened PaperLookup
  import Evidence

  const SupportThreshold: real := 0.45

  /** At most this many example references per supporting paper. */
  const ExampleCap: nat := 3

  /** Only fragments whose trimmed text is longer than this are kept. */
  const MinSentenceLength: nat := 20

  // ---------------------------------------------------------------------------
  // Splitting

  predicate Terminal(c: char)
  {
    c == '.' || c == '?' || c == '!'
  }

  predicate LineBreak(c: char)
  {
    c == '\n' || c == '\r'
  }

  /** The length of the whitespace run starting at p. */
  function SpaceRun(s: string, p: nat): (k: nat)
    requires p <= |s|
    ensures p + k <= |s|
    ensures forall q :: p <= q < p + k ==> IsSpace(s[q])
    decreases |s| - p
  {
    if p < |s| && IsSpace(s[p]) then 1 + SpaceRun(s, p + 1) else 0
  }

  /** The length of the separator the pattern matches at p, 0 for none. The
      alternatives are tried in order, so a line break after a '.' is matched
      alone by the first. */
  function SepAt(s: string, p: nat): (k: nat)
    requires p < |s|
    ensures p + k <= |s|
    ensures k == 0 <==> !LineBreak(s[p]) && !(p > 0 && Terminal(s[p - 1]) && IsSpace(s[p]))
  {
    if LineBreak(s[p]) then 1
    else if p > 0 && Terminal(s[p - 1]) && IsSpace(s[p]) then SpaceRun(s, p)
    else 0
  }

  /** `re.split`: the fragment opened at `start`, scanned from `p`, and the
      fragments after it. */
  function Fragments(s: string, start: nat, p: nat): (fs: seq<string>)
    requires start <= p <= |s|
    decreases |s| - p
  {
    if p == |s| then [s[start..]]
    else
      var k := SepAt(s, p);
      if k == 0 then Fragments(s, start, p + 1)
      else [s[start..p]] + Fragments(s, p + k, p + k)
  }

  /** The trimmed parts longer than twenty characters, in order. */
  function KeepLong(parts: seq<string>): seq<string>
  {
    if parts == [] then []
    else
      var t := Strip(parts[0]);
      var rest := KeepLong(parts[1..]);
      if parts[0] != "" && |t| > MinSentenceLength then [t] + rest else rest
  }

  /** `_split_sentences` */
  function SplitSentences(text: string): (ss: seq<string>)
    ensures text == "" ==> ss == []
  {
    if text == "" then [] else KeepLong(Fragments(text, 0, 0))
  }

  /** A fragment holds no split point: no line break, and no terminal followed
      by whitespace. */
  predicate Unsplit(t: string)
  {
    && (forall q :: 0 <= q < |t| ==> !LineBreak(t[q]))
    && (forall q :: 0 < q < |t| ==> !SpaceAfterTerminal(t, q))
  }

  /** Whitespace at q follows a '.', '?' or '!'. */
  predicate SpaceAfterTerminal(t: string, q: nat)
    requires 0 < q < |t|
  {
    Terminal(t[q - 1]) && IsSpace(t[q])
  }

  /** The text between `start` and a scan position `p` holds no split point. */
  lemma {:induction false} FragmentsUnsplit(s: string, start: nat, p: nat)
    requires start <= p <= |s|
    requires forall q :: start <= q < p ==> SepAt(s, q) == 0
    ensures forall f :: f in Fragments(s, start, p) ==> Unsplit(f)
    decreases |s| - p
  {
    if p == |s| {
      UnsplitBetween(s, start, p);
      assert s[start..p] == s[start..];
    } else {
      var k := SepAt(s, p);
      if k == 0 {
        FragmentsUnsplit(s, start, p + 1);
      } else {
        UnsplitBetween(s, start, p);
        FragmentsUnsplit(s, p + k, p + k);
      }
    }
  }

  lemma UnsplitBetween(s: string, start: nat, p: nat)
    requires start <= p <= |s|
    requires forall q :: start <= q < p ==> SepAt(s, q) == 0
    ensures Unsplit(s[start..p])
  {
    var t := s[start..p];
    forall q | 0 < q < |t| ensures !SpaceAfterTerminal(t, q) {
      assert SepAt(s, start + q) == 0;
    }
    forall q | 0 <= q < |t| ensures !LineBreak(t[q]) {
      assert SepAt(s, start + q) == 0;
    }
  }

  /** A slice of a fragment without split points has none either. */
  lemma UnsplitSlice(t: string, k: nat, m: nat)
    requires k + m <= |t| && Unsplit(t)
    ensures Unsplit(t[k..k + m])
  {
    var r := t[k..k + m];
    forall q | 0 < q < |r| ensures !SpaceAfterTerminal(r, q) {
      assert r[q - 1] == t[k + q - 1] && r[q] == t[k + q];
      assert !SpaceAfterTerminal(t, k + q);
    }
  }

  /** Trimming keeps a fragment free of split points. */
  lemma StripUnsplit(t: string)
    requires Unsplit(t)
    ensures Unsplit(Strip(t))
  {
    StripSlice(t);
    UnsplitSlice(t, |t| - |LStrip(t)|, |Strip(t)|);
  }

  /** A kept sentence: trimmed, longer than 20 characters, without split
      points. */
  predicate Clean(t: string)
  {
    |t| > MinSentenceLength && Unsplit(t) && Trimmed(t)
  }

  lemma {:induction false} KeepLongUnsplit(parts: seq<string>)
    requires forall f :: f in parts ==> Unsplit(f)
    ensures forall t :: t in KeepLong(parts) ==> Clean(t)
  {
    if parts != [] {
      assert forall f :: f in parts[1..] ==> f in parts;
      KeepLongUnsplit(parts[1..]);
      var head := KeepLongUnfold(parts);
      assert forall t :: t in head ==> Clean(t) by {
        if head != [] {
          StripUnsplit(parts[0]);
        }
      }
      CleanConcat(head, KeepLong(parts[1..]));
    }
  }

  /** One step of `KeepLong`: the first fragment, trimmed, when it is kept. */
  lemma KeepLongUnfold(parts: seq<string>) returns (head: seq<string>)
    requires parts != []
    ensures KeepLong(parts) == head + KeepLong(parts[1..])
    ensures head == [] || (head == [Strip(parts[0])] && |Strip(parts[0])| > MinSentenceLength)
  {
    var t := Strip(parts[0]);
    head := if parts[0] != "" && |t| > MinSentenceLength then [t] else [];
  }

  lemma CleanConcat(a: seq<string>, b: seq<string>)
    requires forall t :: t in a ==> Clean(t)
    requires forall t :: t in b ==> Clean(t)
    ensures forall t :: t in a + b ==> Clean(t)
  {
  }

  /** Every sentence is trimmed, longer than 20 characters, and holds no line
      break and no '.', '?' or '!' followed by whitespace. */
  lemma SentencesUnsplit(text: string)
    ensures forall t :: t in SplitSentences(text) ==> Clean(t)
  {
    if text != "" {
      FragmentsUnsplit(text, 0, 0);
      KeepLongUnsplit(Fragments(text, 0, 0));
    }
  }

  /** A text without split points is one sentence when its trimmed form is long
      enough, and none otherwise. */
  lemma {:induction false} OneSentence(text: string)
    requires Unsplit(text)
    ensures |Strip(text)| > MinSentenceLength ==> SplitSentences(text) == [Strip(text)]
    ensures |Strip(text)| <= MinSentenceLength ==> SplitSentences(text) == []
  {
    if text != "" {
      NoSeparators(text, 0, 0);
      assert text[0..] == text;
      assert KeepLong([text][1..]) == [];
      assert KeepLong([text]) == (if |Strip(text)| > MinSentenceLength then [Strip(text)] else []);
    }
  }

  lemma {:induction false} NoSeparators(s: string, start: nat, p: nat)
    requires start <= p <= |s| && Unsplit(s)
    ensures Fragments(s, start, p) == [s[start..]]
    decreases |s| - p
  {
    if p < |s| {
      assert !LineBreak(s[p]);
      assert p > 0 ==> !SpaceAfterTerminal(s, p);
      assert SepAt(s, p) == 0;
      NoSeparators(s, start, p + 1);
    }
  }

  // ---------------------------------------------------------------------------
  // Supports

  datatype ExampleRef = ExampleRef(refId: string, labelText: string, meta: Meta)

  datatype Support = Support(paperId: string, score: real, exampleRefs: seq<ExampleRef>)

  datatype Point = Point(text: string, supports: seq<Support>)

  /** The score of paper `pi` for a sentence embedding `se` (None when the
      sentence has none): 0.0 without a sentence or paper embedding; the cosine
      similarity otherwise, or 0.0 when `cosine_sim` raises on non-empty
      vectors of different lengths with a non-zero norm product. */
  function Score(se: Option<seq<real>>, embs: seq<seq<real>>, pi: nat, norm: seq<real> -> real): (r: real)
    ensures se.None? || pi >= |embs| ==> r == 0.0
  {
    if se.Some? && embs != [] && pi < |embs| then
      if AiService.Comparable(se.value, embs[pi], norm) then AiService.CosineSim(se.value, embs[pi], norm) else 0.0
    else 0.0
  }

  /** An example reference: its resolved id and its title, else that id, as
      the label. */
  function ExampleFor(meta: string -> Meta, rid: string): ExampleRef
  {
    ExampleRef(meta(rid).id, Evidence.TitleOrId(meta(rid)), meta(rid))
  }

  function Examples(rids: seq<string>, meta: string -> Meta): (xs: seq<ExampleRef>)
    ensures |xs| == |rids| && forall k :: 0 <= k < |rids| ==> xs[k] == ExampleFor(meta, rids[k])
  {
    seq(|rids|, k requires 0 <= k < |rids| => ExampleFor(meta, rids[k]))
  }

  /** The support paper `pi` lends a sentence. */
  function SupportFor(se: Option<seq<real>>, embs: seq<seq<real>>, ids: seq<string>, refs: seq<set<string>>,
                      meta: string -> Meta, order: set<string> -> seq<string>, norm: seq<real> -> real,
                      pi: nat): Support
    requires |refs| == |ids| && pi < |ids|
  {
    Support(ids[pi], Score(se, embs, pi, norm), Examples(Take(order(refs[pi]), ExampleCap), meta))
  }

  /** The supports among the papers below m, in paper order. */
  function Supports(se: Option<seq<real>>, embs: seq<seq<real>>, ids: seq<string>, refs: seq<set<string>>,
                    meta: string -> Meta, order: set<string> -> seq<string>, norm: seq<real> -> real,
                    m: nat): seq<Support>
    requires |refs| == |ids| && m <= |ids|
  {
    if m == 0 then []
    else Supports(se, embs, ids, refs, meta, order, norm, m - 1)
         + (if Score(se, embs, m - 1, norm) >= SupportThreshold
            then [SupportFor(se, embs, ids, refs, meta, order, norm, m - 1)] else [])
  }

  /** A paper supports a sentence exactly when its score reaches 0.45; every
      support carries that score and at most three example references. */
  lemma {:induction false} SupportsSpec(se: Option<seq<real>>, embs: seq<seq<real>>, ids: seq<string>,
                                        refs: seq<set<string>>, meta: string -> Meta,
                                        order: set<string> -> seq<string>, norm: seq<real> -> real,
                                        m: nat, s: Support)
    requires |refs| == |ids| && m <= |ids|
    ensures s in Supports(se, embs, ids, refs, meta, order, norm, m) <==>
              exists pi :: 0 <= pi < m && Score(se, embs, pi, norm) >= SupportThreshold
                           && s == SupportFor(se, embs, ids, refs, meta, order, norm, pi)
    ensures s in Supports(se, embs, ids, refs, meta, order, norm, m) ==>
              s.score >= SupportThreshold && |s.exampleRefs| <= ExampleCap
  {
    if m > 0 {
      SupportsSpec(se, embs, ids, refs, meta, order, norm, m - 1, s);
    }
  }

  /** A sentence without an embedding has no support. */
  lemma {:induction false} NoEmbeddingNoSupport(embs: seq<seq<real>>, ids: seq<string>, refs: seq<set<string>>,
                                                meta: string -> Meta, order: set<string> -> seq<string>,
                                                norm: seq<real> -> real, m: nat)
    requires |refs| == |ids| && m <= |ids|
    ensures Supports(None, embs, ids, refs, meta, order, norm, m) == []
  {
    if m > 0 {
      NoEmbeddingNoSupport(embs, ids, refs, meta, order, norm, m - 1);
    }
  }

  /** The embedding of sentence `si`, when the embedder returned one. */
  function SentenceEmbedding(sentEmbs: seq<seq<real>>, si: nat): (se: Option<seq<real>>)
    ensures se.Some? <==> si < |sentEmbs|
  {
    if si < |sentEmbs| then Some(sentEmbs[si]) else None
  }

  /** The comparison points: one per sentence, in order. */
  function Points(sentences: seq<string>, sentEmbs: seq<seq<real>>, embs: seq<seq<real>>, ids: seq<string>,
                  refs: seq<set<string>>, meta: string -> Meta, order: set<string> -> seq<string>,
                  norm: seq<real> -> real): (ps: seq<Point>)
    requires |refs| == |ids|
    ensures |ps| == |sentences|
    ensures forall si :: 0 <= si < |sentences| ==>
              ps[si] == Point(sentences[si], Supports(SentenceEmbedding(sentEmbs, si), embs, ids, refs, meta, order, norm, |ids|))
  {
    seq(|sentences|, si requires 0 <= si < |sentences| =>
          Point(sentences[si], Supports(SentenceEmbedding(sentEmbs, si), embs, ids, refs, meta, order, norm, |ids|)))
  }

  /** The sentences of a list of points. */
  function PointTexts(ps: seq<Point>): (ts: seq<string>)
    ensures |ts| == |ps| && forall k :: 0 <= k < |ps| ==> ts[k] == ps[k].text
  {
    seq(|ps|, k requires 0 <= k < |ps| => ps[k].text)
  }

  /** Every support of every point reaches the threshold and carries at most
      three example references. */
  predicate WellSupported(ps: seq<Point>)
  {
    forall si, x :: 0 <= si < |ps| && x in ps[si].supports ==>
      x.score >= SupportThreshold && |x.exampleRefs| <= ExampleCap
  }

  /** The points are the sentences, in order, and are well supported. */
  lemma PointsSupports(sentences: seq<string>, sentEmbs: seq<seq<real>>, embs: seq<seq<real>>, ids: seq<string>,
                       refs: seq<set<string>>, meta: string -> Meta, order: set<string> -> seq<string>,
                       norm: seq<real> -> real)
    requires |refs| == |ids|
    ensures PointTexts(Points(sentences, sentEmbs, embs, ids, refs, meta, order, norm)) == sentences
    ensures WellSupported(Points(sentences, sentEmbs, embs, ids, refs, meta, order, norm))
  {
    var ps := Points(sentences, sentEmbs, embs, ids, refs, meta, order, norm);
    forall si, x | 0 <= si < |ps| && x in ps[si].supports
      ensures x.score >= SupportThreshold && |x.exampleRefs| <= ExampleCap
    {
      SupportsSpec(SentenceEmbedding(sentEmbs, si), embs, ids, refs, meta, order, norm, |ids|, x);
    }
  }

  /** The loop over the papers for one sentence. */
  method CollectSupports(se: Option<seq<real>>, embs: seq<seq<real>>, ids: seq<string>, refs: seq<set<string>>,
                         meta: string -> Meta, order: set<string> -> seq<string>, norm: seq<real> -> real)
    returns (supports: seq<Support>)
    requires |refs| == |ids|
    ensures supports == Supports(se, embs, ids, refs, meta, order, norm, |ids|)
  {
    supports := [];
    for pi := 0 to |ids|
      invariant supports == Supports(se, embs, ids, refs, meta, order, norm, pi)
    {
      var score := 0.0;
      if se.Some? && embs != [] && pi < |embs| {
        if AiService.Comparable(se.value, embs[pi], norm) {
          score := AiService.CosineSim(se.value, embs[pi], norm);
        } else {
          score := 0.0;
        }
      }
      if score >= SupportThreshold {
        var refIds := Take(order(refs[pi]), ExampleCap);
        var exampleRefs: seq<ExampleRef> := [];
        for k := 0 to |refIds|
          invariant exampleRefs == Examples(refIds[..k], meta)
        {
          var m := meta(refIds[k]);
          exampleRefs := exampleRefs + [ExampleRef(m.id, Evidence.TitleOrId(m), m)];
        }
        assert refIds[..|refIds|] == refIds;
        supports := supports + [Support(ids[pi], score, exampleRefs)];
      }
    }
  }

  /** The loop over the sentences. */
  method CollectPoints(sentences: seq<string>, sentEmbs: seq<seq<real>>, embs: seq<seq<real>>, ids: seq<string>,
                       refs: seq<set<string>>, meta: string -> Meta, order: set<string> -> seq<string>,
                       norm: seq<real> -> real) returns (points: seq<Point>)
    requires |refs| == |ids|
    ensures points == Points(sentences, sentEmbs, embs, ids, refs, meta, order, norm)
  {
    points := [];
    for si := 0 to |sentences|
      invariant points == Points(sentences[..si], sentEmbs, embs, ids, refs, meta, order, norm)
    {
      var se := if si < |sentEmbs| then Some(sentEmbs[si]) else None;
      var supports := CollectSupports(se, embs, ids, refs, meta, order, norm);
      points := points + [Point(sentences[si], supports)];
    }
    assert sentences[..|sentences|] == sentences;
  }
}
