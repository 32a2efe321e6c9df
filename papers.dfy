/**
 * The lookups of the paper-comparison endpoint: the metadata of each
 * requested paper (the index first, OpenAlex when the index has nothing),
 * the normalised reference set of a paper, and the metadata of a reference
 * (`_resolve_ref_meta`).
 *
 * Elasticsearch is an oracle `es`: for an id it raises (`Missing`) or returns
 * a document whose `_source` may be absent or empty (`Found(None)`).
 * OpenAlex resolution is an oracle `resolve` (None when `resolve_work`
 * returns None).
 */
module PaperLookup {
  import opened Py
  import OpenAlex
  import Graph

  /** A reference list as stored in the index: a list of ids or one
      comma-separated string. */
  datatype RefField = RefList(ids: seq<string>) | RefText(text: string)

  /** The `_source` fields the comparison endpoints read; an absent key is
      None, and absent or empty `authors` is []. */
  datatype Doc = Doc(title: Option<string>, name: Option<string>, abstractText: Option<string>,
                     summary: Option<string>, description: Option<string>, authors: seq<string>,
                     year: Option<string>, published: Option<string>,
                     references: Option<RefField>, referenceIds: Option<RefField>)

  /** The outcome of `es.get`. */
  datatype EsGet = Missing | Found(source: Option<Doc>)

  /** One compared paper: the requested id, its title (None when unknown), its
      abstract text and the OpenAlex work it was resolved to, if any. */
  datatype Paper = Paper(id: string, title: Option<string>, abstractText: string,
                         oa: Option<OpenAlex.Work>)

  /** The metadata of a reference. */
  datatype Meta = Meta(id: string, title: Option<string>, authors: seq<Option<string>>,
                       year: Option<Graph.Year>)

  /** `doc.get('_source', {})`, or `{}` when the lookup raised; None stands for
      an empty source. */
  function SourceOf(g: EsGet): (src: Option<Doc>)
    ensures g.Missing? ==> src == None
  {
    match g
    case Missing => None
    case Found(source) => source
  }

  // ---------------------------------------------------------------------------
  // The compared papers

  /** The abstract read from an OpenAlex work: `abstract`, else the words of
      `abstract_inverted_index` joined by spaces, else ''. */
  function OaAbstract(w: OpenAlex.Work): (a: string)
    ensures Truthy(w.abstractText) ==> a == w.abstractText.value
    ensures !Truthy(w.abstractText) && w.abstractIndexWords == [] ==> a == ""
  {
    if Truthy(w.abstractText) then w.abstractText.value
    else if w.abstractIndexWords != [] then Join(" ", w.abstractIndexWords)
    else ""
  }

  /** The paper record built for one requested id: from the index source when
      there is one; otherwise from the resolved OpenAlex work (title from
      `display_name`, else `title`); otherwise with no title and an empty
      abstract. */
  function PaperFor(pid: string, es: string -> EsGet, resolve: string -> Option<OpenAlex.Work>): (p: Paper)
    ensures p.id == pid
    ensures SourceOf(es(pid)).Some? ==>
              p.oa == None && p.title == SourceOf(es(pid)).value.title
    ensures SourceOf(es(pid)).None? ==> p.oa == resolve(pid)
    ensures SourceOf(es(pid)).None? && resolve(pid).Some? ==>
              p.title == Or(resolve(pid).value.displayName, resolve(pid).value.title)
              && p.abstractText == OaAbstract(resolve(pid).value)
    ensures SourceOf(es(pid)).None? && resolve(pid).None? ==> p.title == None && p.abstractText == ""
  {
    match SourceOf(es(pid))
    case Some(src) =>
      Paper(pid, src.title, OrEmpty(Or(Or(src.abstractText, src.summary), src.description)), None)
    case None =>
      match resolve(pid)
      case Some(w) => Paper(pid, Or(w.displayName, w.title), OaAbstract(w), Some(w))
      case None => Paper(pid, None, "", None)
  }

  /** The loop that collects the compared papers. */
  method GatherPapers(ids: seq<string>, es: string -> EsGet, resolve: string -> Option<OpenAlex.Work>)
    returns (papers: seq<Paper>)
    ensures |papers| == |ids|
    ensures forall k :: 0 <= k < |ids| ==> papers[k] == PaperFor(ids[k], es, resolve)
  {
    papers := [];
    for i := 0 to |ids|
      invariant |papers| == i
      invariant forall k :: 0 <= k < i ==> papers[k] == PaperFor(ids[k], es, resolve)
    {
      papers := papers + [PaperFor(ids[i], es, resolve)];
    }
  }

  /** The text keywords are drawn from: the abstract, else the title. None
      stands for a paper with neither, for which `extract_keywords(None)`
      raises. */
  function KeywordText(p: Paper): (t: Option<string>)
    ensures p.abstractText != "" ==> t == Some(p.abstractText)
    ensures t.None? <==> p.abstractText == "" && p.title.None?
  {
    if p.abstractText != "" then Some(p.abstractText) else p.title
  }

  // ---------------------------------------------------------------------------
  // Reference sets

  predicate RefTruthy(r: Option<RefField>)
  {
    match r
    case None => false
    case Some(RefList(ids)) => ids != []
    case Some(RefText(text)) => text != ""
  }

  /** The ids a reference field names: a list as it is, a string split on ','
      with the pieces trimmed and the empty ones dropped. */
  function RefIds(r: Option<RefField>): seq<string>
  {
    match r
    case None => []
    case Some(RefList(ids)) => ids
    case Some(RefText(text)) => CommaList(text)
  }

  /** The reference field a paper's ids are read from: `references`, else
      `reference_ids`; when neither is set and the paper was resolved through
      OpenAlex, its `referenced_works`. */
  function RefSource(src: Option<Doc>, oa: Option<OpenAlex.Work>): (r: Option<RefField>)
    ensures src.Some? && RefTruthy(src.value.references) ==> r == src.value.references
    ensures src.Some? && !RefTruthy(src.value.references) && RefTruthy(src.value.referenceIds) ==>
              r == src.value.referenceIds
    ensures !RefTruthy(r) && oa.Some? ==> r == Some(RefList([]))
    ensures RefTruthy(r) ==>
              (src.Some? || (oa.Some? && r == Some(RefList(oa.value.referencedWorks))))
  {
    var fromIndex := if src.None? then None
                     else if RefTruthy(src.value.references) then src.value.references
                     else if RefTruthy(src.value.referenceIds) then src.value.referenceIds
                     else None;
    if !RefTruthy(fromIndex) && oa.Some? then Some(RefList(oa.value.referencedWorks))
    else fromIndex
  }

  /** The reference set of a compared paper. */
  function RefSet(p: Paper, es: string -> EsGet): set<string>
  {
    var ids := RefIds(RefSource(SourceOf(es(p.id)), p.oa));
    set x | x in ids
  }

  /** A reference string yields exactly its non-blank comma-separated pieces,
      trimmed; no id read from a string is empty, padded or holds a comma. */
  lemma RefTextIds(text: string, x: string)
    ensures x in RefIds(Some(RefText(text))) <==> x != "" && TrimsTo(SplitOn(text, ","), x)
    ensures x in RefIds(Some(RefText(text))) ==> x != "" && Trimmed(x) && ',' !in x
  {
    StrippedPiecesMembers(SplitOn(text, ","), x);
    CommaListClean(text);
  }

  // ---------------------------------------------------------------------------
  // Reference metadata

  /** The author names read from OpenAlex authorships: for a dict, its
      `author` object's `display_name` or `name`, or else `str()` of the entry's
      own `display_name`; any other entry as text. */
  function OaAuthorName(a: OpenAlex.Authorship): (n: Option<string>)
    ensures a.AuthorValue? ==> n == Some(a.name)
    ensures a.AuthorDict? && a.author.None? ==> n == Some(Str(a.displayName))
  {
    match a
    case AuthorDict(author, displayName) =>
      if author.Some? then Or(author.value.displayName, author.value.name)
      else Some(Str(displayName))
    case AuthorValue(name) => Some(name)
  }

  function OaAuthorNames(ws: seq<OpenAlex.Authorship>): (ns: seq<Option<string>>)
    ensures |ns| == |ws| && forall k :: 0 <= k < |ws| ==> ns[k] == OaAuthorName(ws[k])
  {
    seq(|ws|, k requires 0 <= k < |ws| => OaAuthorName(ws[k]))
  }

  function IndexAuthors(names: seq<string>): (ns: seq<Option<string>>)
    ensures |ns| == |names| && forall k :: 0 <= k < |names| ==> ns[k] == Some(names[k])
  {
    seq(|names|, k requires 0 <= k < |names| => Some(names[k]))
  }

  /** `_resolve_ref_meta`: an id the index knows is described by its source
      (title or name, authors, year or published); otherwise by the OpenAlex
      work it resolves to, whose own id wins when set; otherwise by the raw id,
      which then also serves as the title. */
  function RefMeta(rid: string, es: string -> EsGet, resolve: string -> Option<OpenAlex.Work>): (m: Meta)
    ensures es(rid).Found? ==> m.id == rid
    ensures es(rid).Found? && es(rid).source.Some? ==>
              var src := es(rid).source.value;
              m.title == Or(src.title, src.name) && |m.authors| == |src.authors|
    ensures es(rid).Found? && es(rid).source.None? ==> m == Meta(rid, None, [], None)
    ensures es(rid).Missing? && resolve(rid).Some? ==>
              var w := resolve(rid).value;
              m.id == (if Truthy(w.id) then w.id.value else rid)
              && m.title == Or(w.displayName, w.title)
              && |m.authors| == |w.authorships|
    ensures es(rid).Missing? && resolve(rid).None? ==> m == Meta(rid, Some(rid), [], None)
  {
    match es(rid)
    case Found(source) =>
      (match source
       case Some(src) =>
         var year := Or(src.year, src.published);
         Meta(rid, Or(src.title, src.name), IndexAuthors(src.authors),
              if year.Some? then Some(Graph.YearText(year.value)) else None)
       case None => Meta(rid, None, [], None))
    case Missing =>
      match resolve(rid)
      case Some(w) =>
        Meta(if Truthy(w.id) then w.id.value else rid, Or(w.displayName, w.title),
             OaAuthorNames(w.authorships),
             if w.publicationYear.Some? then Some(Graph.YearNumber(w.publicationYear.value)) else None)
      case None => Meta(rid, Some(rid), [], None)
  }
}
