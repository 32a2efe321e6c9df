/**
 * The `POST /score` endpoint of the novelty router: request validation and the
 * defaults it passes to the novelty scorer.
 */
module NoveltyApi {
  import opened Py
  import Novelty

  /** The request body; every field is optional. */
  datatype NoveltyRequest = NoveltyRequest(title: Option<string>, abstractText: Option<string>,
                                           references: Option<seq<string>>)

  datatype Response = Error(status: nat, detail: string) | Ok(score: Novelty.Score)

  /** The number of candidates the endpoint always asks for. */
  const TopK: int := 50

  /** `req.references or []` */
  function ReferencesOrEmpty(references: Option<seq<string>>): seq<string>
  {
    if references.Some? then references.value else []
  }

  /** `score_novelty`: a request with neither a title nor an abstract is refused
      with 400 before any scoring; otherwise the scorer runs on the title and
      abstract (missing ones as ''), the references (missing as []) and 50
      candidates. */
  function ScoreNovelty(req: NoveltyRequest, encode: string -> Option<seq<real>>, searchReady: bool,
                        search: (string, int) -> Option<seq<Novelty.Candidate>>,
                        norm: seq<real> -> real, log2: real -> real): (resp: Response)
    requires Novelty.Log2Positive(log2)
    ensures (!Truthy(req.title) && !Truthy(req.abstractText)) <==>
              resp == Error(400, "Provide at least a title or abstract")
    ensures resp.Ok? <==> Truthy(req.title) || Truthy(req.abstractText)
    ensures resp.Ok? ==>
              resp.score == Novelty.ScoreOf(OrEmpty(req.title), OrEmpty(req.abstractText),
                                            ReferencesOrEmpty(req.references), 50,
                                            encode, searchReady, search, norm, log2)
  {
    if !Truthy(req.title) && !Truthy(req.abstractText) then
      Error(400, "Provide at least a title or abstract")
    else
      Ok(Novelty.ScoreOf(OrEmpty(req.title), OrEmpty(req.abstractText), ReferencesOrEmpty(req.references),
                         TopK, encode, searchReady, search, norm, log2))
  }

  /** An accepted request always reports a novelty and an overlap score in [0, 1]. */
  lemma AcceptedScoresBounded(req: NoveltyRequest, encode: string -> Option<seq<real>>, searchReady: bool,
                              search: (string, int) -> Option<seq<Novelty.Candidate>>,
                              norm: seq<real> -> real, log2: real -> real)
    requires Novelty.Log2Positive(log2)
    ensures var resp := ScoreNovelty(req, encode, searchReady, search, norm, log2);
            resp.Ok? ==> 0.0 <= resp.score.novelty <= 1.0 && 0.0 <= resp.score.overlapScore <= 1.0
  {
    Novelty.ScoreBounds(OrEmpty(req.title), OrEmpty(req.abstractText), ReferencesOrEmpty(req.references),
                        TopK, encode, searchReady, search, norm, log2);
  }
}
