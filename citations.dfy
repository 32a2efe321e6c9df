/**
 * The citation service: APA-, MLA- and Chicago-like reference strings and
 * BibTeX entries built from a paper record, the style dispatch and the
 * batch formatter.
 *
 * A paper's fields are the strings `paper.get(field, "")` yields; authors are
 * their `name` entries. A formatter that raises is modelled by `None`.
 */
module Citations {
  import opened Py

  datatype Paper = Paper(authors: seq<string>, title: string, publicationDate: string,
                         journal: string, volume: string, issue: string, pages: string,
                         doi: string, publisher: string, id: string)

  // ---------------------------------------------------------------------------
  // Shared pieces

  /** The year: the text of `publication_date` before its first '-', or ""
      when the date is empty. */
  function YearOf(date: string): (year: string)
    ensures StartsWith(date, year)
    ensures forall m :: 0 <= m < |year| ==> year[m] != '-'
    ensures date != "" && |year| < |date| ==> date[|year|] == '-'
    ensures date == "" ==> year == ""
  {
    if date == "" then ""
    else
      var k := FindFrom(date, "-", 0);
      assert forall m :: 0 <= m < (if k < 0 then |date| else k) ==> date[m] != '-' by {
        forall m | 0 <= m < (if k < 0 then |date| else k) ensures date[m] != '-' {
          assert !OccursAt(date, "-", m);
          assert date[m..m + 1] == [date[m]];
        }
      }
      assert k >= 0 ==> date[k..k + 1] == "-";
      SplitOn(date, "-")[0]
  }

  /** The given names before the surname: a multi-word name becomes
      "Last, First Middle"; a name of one word (or none) is unchanged. */
  function Invert(name: string): (r: string)
    ensures |Words(name)| <= 1 ==> r == name
    ensures |Words(name)| > 1 ==> StartsWith(r, Words(name)[|Words(name)| - 1] + ", ")
  {
    var parts := Words(name);
    if |parts| > 1 then parts[|parts| - 1] + ", " + Join(" ", parts[..|parts| - 1]) else name
  }

  lemma JoinCons(sep: string, a: string, rest: seq<string>)
    requires rest != []
    ensures Join(sep, [a] + rest) == a + sep + Join(sep, rest)
  {
    assert ([a] + rest)[1..] == rest;
  }

  /** Inverting rotates the name's words: the surname, with a comma, moves to
      the front and the other words follow in order. */
  lemma InvertRotatesWords(name: string)
    requires |Words(name)| > 1
    ensures var ws := Words(name);
            Words(Invert(name)) == [ws[|ws| - 1] + ","] + ws[..|ws| - 1]
  {
    var ws := Words(name);
    WordsAreWords(name);
    RotatedWords(ws);
    InvertJoins(name);
  }

  /** The inverted name is the rotated words joined by spaces. */
  lemma InvertJoins(name: string)
    requires |Words(name)| > 1
    ensures var ws := Words(name);
            Invert(name) == Join(" ", [ws[|ws| - 1] + ","] + ws[..|ws| - 1])
  {
    var ws := Words(name);
    var last, rest := ws[|ws| - 1], Join(" ", ws[..|ws| - 1]);
    JoinCons(" ", last + ",", ws[..|ws| - 1]);
    assert last + ", " + rest == last + "," + " " + rest;
  }

  /** The rotated words, joined by spaces, split back into themselves. */
  lemma RotatedWords(ws: seq<string>)
    requires |ws| > 1 && forall w :: w in ws ==> IsWord(w)
    ensures var rotated := [ws[|ws| - 1] + ","] + ws[..|ws| - 1];
            Words(Join(" ", rotated)) == rotated
  {
    var last := ws[|ws| - 1];
    var init := ws[..|ws| - 1];
    assert IsWord(last + ",") by {
      assert IsWord(last);
    }
    forall w | w in [last + ","] + init ensures IsWord(w) {
      if w in init {
        assert w in ws;
      }
    }
    WordsJoin([last + ","] + init);
  }

  /** A string built as head, middle and tail starts with the head and ends
      with the tail. */
  lemma Framed(head: string, mid: string, tail: string)
    ensures StartsWith(head + mid + tail, head) && EndsWith(head + mid + tail, tail)
  {
    var c := head + mid + tail;
    assert c[..|head|] == head;
    assert c[|c| - |tail|..] == tail;
  }

  /** " https://doi.org/{doi}" when a DOI is set. */
  function DoiLink(doi: string): string
  {
    if doi != "" then " https://doi.org/" + doi else ""
  }

  // ---------------------------------------------------------------------------
  // APA

  /** One author by name, two joined by " & ", more as the first with
      ", et al.", none as "". */
  function ApaAuthors(names: seq<string>): (r: string)
    ensures names == [] ==> r == ""
    ensures names != [] ==> StartsWith(r, names[0])
    ensures |names| == 2 ==> r == names[0] + " & " + names[1]
    ensures |names| >= 3 ==> r == names[0] + ", et al."
  {
    if names == [] then ""
    else if |names| == 1 then names[0]
    else if |names| == 2 then names[0] + " & " + names[1]
    else names[0] + ", et al."
  }

  /** The journal, then ", volume" with "(issue)", then ", pages". */
  function ApaVenue(p: Paper): string
  {
    if p.journal == "" then ""
    else
      p.journal
      + (if p.volume != "" then ", " + p.volume + (if p.issue != "" then "(" + p.issue + ")" else "") else "")
      + (if p.pages != "" then ", " + p.pages else "")
  }

  /** `format_apa`. */
  function FormatApa(p: Paper): (c: string)
    ensures StartsWith(c, ApaAuthors(p.authors) + " (" + YearOf(p.publicationDate) + "). " + p.title + ". ")
    ensures EndsWith(c, "." + DoiLink(p.doi))
  {
    var head := ApaAuthors(p.authors) + " (" + YearOf(p.publicationDate) + "). " + p.title + ". ";
    Framed(head, ApaVenue(p), "." + DoiLink(p.doi));
    head + ApaVenue(p) + ("." + DoiLink(p.doi))
  }

  /** Volume, issue and pages appear only after a journal, and the issue only
      after a volume: the fields they hang on being empty, they are ignored. */
  lemma ApaNesting(p: Paper)
    ensures p.journal == "" ==> FormatApa(p) == FormatApa(p.(volume := "", issue := "", pages := ""))
    ensures p.volume == "" ==> FormatApa(p) == FormatApa(p.(issue := ""))
  {
  }

  // ---------------------------------------------------------------------------
  // MLA

  /** One author inverted, two as the inverted first " and " the second
      verbatim, more as the inverted first with ", et al.". */
  function MlaAuthors(names: seq<string>): (r: string)
    ensures names == [] ==> r == ""
    ensures names != [] ==> StartsWith(r, Invert(names[0]))
    ensures |names| == 2 ==> r == Invert(names[0]) + " and " + names[1]
    ensures |names| >= 3 ==> r == Invert(names[0]) + ", et al."
  {
    if names == [] then ""
    else if |names| == 1 then Invert(names[0])
    else if |names| == 2 then Invert(names[0]) + " and " + names[1]
    else Invert(names[0]) + ", et al."
  }

  function MlaVenue(p: Paper): string
  {
    var year := YearOf(p.publicationDate);
    if p.journal == "" then ""
    else
      p.journal
      + (if p.volume != "" then ", vol. " + p.volume + (if p.issue != "" then ", no. " + p.issue else "") else "")
      + (if year != "" then ", " + year else "")
      + (if p.pages != "" then ", pp. " + p.pages else "")
  }

  /** `format_mla`: the year appears only inside the journal block. */
  function FormatMla(p: Paper): (c: string)
    ensures StartsWith(c, MlaAuthors(p.authors) + ". \"" + p.title + ".\" ")
    ensures EndsWith(c, "." + (if p.doi != "" then " DOI: " + p.doi else ""))
  {
    var head := MlaAuthors(p.authors) + ". \"" + p.title + ".\" ";
    var tail := "." + (if p.doi != "" then " DOI: " + p.doi else "");
    Framed(head, MlaVenue(p), tail);
    head + MlaVenue(p) + tail
  }

  /** Without a journal MLA shows no volume, issue, pages or year. */
  lemma MlaNesting(p: Paper)
    ensures p.journal == "" ==>
              FormatMla(p) == FormatMla(p.(volume := "", issue := "", pages := "", publicationDate := ""))
    ensures p.volume == "" ==> FormatMla(p) == FormatMla(p.(issue := ""))
  {
  }

  // ---------------------------------------------------------------------------
  // Chicago

  /** The list the 2–3 author branch builds: the first author inverted, the
      others verbatim. */
  function ChicagoNames(names: seq<string>): (f: seq<string>)
    requires names != []
    ensures |f| == |names| && f[0] == Invert(names[0]) && f[1..] == names[1..]
  {
    [Invert(names[0])] + names[1..]
  }

  /** The loop of the 2–3 author branch, appending one formatted name per
      author. */
  method FormatChicagoNames(names: seq<string>) returns (formatted: seq<string>)
    requires names != []
    ensures formatted == ChicagoNames(names)
  {
    formatted := [];
    for i := 0 to |names|
      invariant formatted == ChicagoNames(names)[..i]
    {
      var parts := Words(names[i]);
      if |parts| > 1 {
        if i == 0 {
          formatted := formatted + [parts[|parts| - 1] + ", " + Join(" ", parts[..|parts| - 1])];
        } else {
          formatted := formatted + [names[i]];
        }
      } else {
        formatted := formatted + [names[i]];
      }
    }
  }

  /** One author inverted; two or three as the formatted list joined by ", "
      with ", and " before the last; more as the inverted first with
      ", et al.". */
  function ChicagoAuthors(names: seq<string>): (r: string)
    ensures names == [] ==> r == ""
    ensures |names| == 1 ==> r == Invert(names[0])
    ensures |names| >= 4 ==> r == Invert(names[0]) + ", et al."
  {
    if names == [] then ""
    else if |names| == 1 then Invert(names[0])
    else if |names| <= 3 then
      var f := ChicagoNames(names);
      Join(", ", f[..|f| - 1]) + ", and " + f[|f| - 1]
    else Invert(names[0]) + ", et al."
  }

  /** With two authors: "First inverted, and Second"; with three: "First
      inverted, Second, and Third". */
  lemma ChicagoFewAuthors(names: seq<string>)
    ensures |names| == 2 ==> ChicagoAuthors(names) == Invert(names[0]) + ", and " + names[1]
    ensures |names| == 3 ==> ChicagoAuthors(names) == Invert(names[0]) + ", " + names[1] + ", and " + names[2]
  {
    if |names| == 3 {
      var f := ChicagoNames(names);
      assert f[..2] == [Invert(names[0])] + [names[1]];
      JoinCons(", ", Invert(names[0]), [names[1]]);
    }
  }

  function ChicagoVenue(p: Paper): string
  {
    var year := YearOf(p.publicationDate);
    if p.journal == "" then ""
    else
      " " + p.journal
      + (if p.volume != "" then " " + p.volume + (if p.issue != "" then ", no. " + p.issue else "") else "")
      + (if year != "" then " (" + year + ")" else "")
      + (if p.pages != "" then ": " + p.pages else "")
  }

  /** `format_chicago`. */
  function FormatChicago(p: Paper): (c: string)
    ensures StartsWith(c, ChicagoAuthors(p.authors) + ". \"" + p.title + ".\"")
    ensures EndsWith(c, "." + DoiLink(p.doi))
  {
    var head := ChicagoAuthors(p.authors) + ". \"" + p.title + ".\"";
    Framed(head, ChicagoVenue(p), "." + DoiLink(p.doi));
    head + ChicagoVenue(p) + ("." + DoiLink(p.doi))
  }

  /** Without a journal Chicago shows no volume, issue, pages or year. */
  lemma ChicagoNesting(p: Paper)
    ensures p.journal == "" ==>
              FormatChicago(p) == FormatChicago(p.(volume := "", issue := "", pages := "", publicationDate := ""))
    ensures p.volume == "" ==> FormatChicago(p) == FormatChicago(p.(issue := ""))
  {
  }

  // ---------------------------------------------------------------------------
  // BibTeX

  /** The citation key: the lower-cased last word of the first author's name
      followed by the year when both are present, else "paper" and the id;
      None when the first author's name has no words (`split()[-1]` raises). */
  function BibtexKey(p: Paper): (key: Option<string>)
    ensures key.None? <==> p.authors != [] && YearOf(p.publicationDate) != "" && Words(p.authors[0]) == []
    ensures (p.authors == [] || YearOf(p.publicationDate) == "") ==> key == Some("paper" + p.id)
    ensures key.Some? && p.authors != [] && YearOf(p.publicationDate) != "" ==>
              EndsWith(key.value, YearOf(p.publicationDate))
  {
    var year := YearOf(p.publicationDate);
    if p.authors != [] && year != "" then
      var parts := Words(p.authors[0]);
      if parts == [] then None else Some(Lower(parts[|parts| - 1]) + year)
    else Some("paper" + p.id)
  }

  /** `"{name} = {value}"` as a BibTeX field line, without its trailing ",\n". */
  function Field(name: string, value: string): (line: string)
    ensures Braced(line)
  {
    "  " + name + " = {" + value + "}"
  }

  /** The line ends with a closing brace. */
  predicate Braced(line: string)
  {
    line != [] && line[|line| - 1] == '}'
  }

  function FieldIf(name: string, value: string): (lines: seq<string>)
    ensures forall l :: l in lines ==> Braced(l)
  {
    if value != "" then [Field(name, value)] else []
  }

  /** The field lines in order: author and title always; journal, year,
      volume, number, pages, publisher, doi and url when set. */
  function BibtexFields(p: Paper): (lines: seq<string>)
    ensures |lines| >= 2
    ensures forall l :: l in lines ==> Braced(l)
  {
    [Field("author", Join(" and ", p.authors)), Field("title", p.title)]
    + FieldIf("journal", p.journal) + FieldIf("year", YearOf(p.publicationDate))
    + FieldIf("volume", p.volume) + FieldIf("number", p.issue) + FieldIf("pages", p.pages)
    + FieldIf("publisher", p.publisher)
    + (if p.doi != "" then [Field("doi", p.doi), Field("url", "https://doi.org/" + p.doi)] else [])
  }

  /** Each line followed by ",\n", as the entry is accumulated. */
  function Terminated(lines: seq<string>): string
  {
    if lines == [] then "" else lines[0] + ",\n" + Terminated(lines[1..])
  }

  /** Python `s.rstrip(chars)`. */
  function RStripChars(s: string, chars: set<char>): (r: string)
    ensures r <= s
    ensures r == [] || r[|r| - 1] !in chars
  {
    if s != [] && s[|s| - 1] in chars then RStripChars(s[..|s| - 1], chars) else s
  }

  /** `format_bibtex` as written: every field line ends with ",\n"; then all
      trailing commas and newlines are stripped and "\n}" appended. */
  function FormatBibtex(p: Paper): (entry: Option<string>)
    ensures entry.None? <==> BibtexKey(p).None?
  {
    match BibtexKey(p)
    case None => None
    case Some(key) =>
      Some(RStripChars("@article{" + key + ",\n" + Terminated(BibtexFields(p)), {',', '\n'}) + "\n" + "}")
  }

  lemma {:induction false} TerminatedJoin(lines: seq<string>)
    requires lines != []
    ensures Terminated(lines) == Join(",\n", lines) + ",\n"
  {
    if |lines| > 1 {
      TerminatedJoin(lines[1..]);
    } else {
      assert lines[1..] == [];
    }
  }

  lemma {:induction false} JoinLastChar(sep: string, lines: seq<string>)
    requires lines != [] && lines[|lines| - 1] != []
    ensures var j := Join(sep, lines);
            j != [] && j[|j| - 1] == lines[|lines| - 1][|lines[|lines| - 1]| - 1]
  {
    if |lines| > 1 {
      JoinLastChar(sep, lines[1..]);
    }
  }

  /** Stripping trailing commas and newlines from accumulated lines that each
      end in '}' removes exactly the last ",\n". */
  lemma StripTerminated(prefix: string, lines: seq<string>)
    requires lines != [] && Braced(lines[|lines| - 1])
    ensures RStripChars(prefix + Terminated(lines), {',', '\n'}) == prefix + Join(",\n", lines)
  {
    var x := prefix + Join(",\n", lines);
    TerminatedJoin(lines);
    JoinLastChar(",\n", lines);
    var raw := x + ",\n";
    assert prefix + Terminated(lines) == raw;
    var cs := {',', '\n'};
    assert raw[|raw| - 1] == '\n' && raw[..|raw| - 1] == x + ",";
    assert RStripChars(raw, cs) == RStripChars(x + ",", cs);
    assert (x + ",")[|x|] == ',' && (x + ",")[..|x|] == x;
    assert RStripChars(x + ",", cs) == RStripChars(x, cs);
    assert x[|x| - 1] == '}' && '}' !in cs;
  }

  /** The entry is "@article{key,\n", the field lines separated by ",\n",
      then "\n}": the comma after the last field is gone and no other. */
  lemma BibtexEntryShape(p: Paper)
    requires BibtexKey(p).Some?
    ensures FormatBibtex(p) == Some("@article{" + BibtexKey(p).value + ",\n" + Join(",\n", BibtexFields(p)) + "\n}")
  {
    var lines := BibtexFields(p);
    var prefix := "@article{" + BibtexKey(p).value + ",\n";
    StripTerminated(prefix, lines);
    var body := prefix + Join(",\n", lines);
    assert FormatBibtex(p) == Some(body + "\n" + "}");
    assert body + "\n" + "}" == body + "\n}";
  }

  // ---------------------------------------------------------------------------
  // Dispatch

  /** `format_citation`: the style is lower-cased; "mla", "chicago" and
      "bibtex" select those formats and everything else is APA. */
  function FormatCitation(p: Paper, style: string): (c: Option<string>)
    ensures Lower(style) != "bibtex" ==> c.Some?
    ensures Lower(style) !in {"mla", "chicago", "bibtex"} ==> c == Some(FormatApa(p))
  {
    var s := Lower(style);
    if s == "apa" then Some(FormatApa(p))
    else if s == "mla" then Some(FormatMla(p))
    else if s == "chicago" then Some(FormatChicago(p))
    else if s == "bibtex" then FormatBibtex(p)
    else Some(FormatApa(p))
  }

  /** The style is matched without regard to case. */
  lemma FormatCitationCaseInsensitive(p: Paper, style: string)
    ensures FormatCitation(p, style) == FormatCitation(p, Lower(style))
  {
    LowerIdempotent(style);
  }

  /** `format_multiple_citations`: every paper in order, or None when
      formatting one of them raises. */
  function FormatMultiple(papers: seq<Paper>, style: string): (cs: Option<seq<string>>)
    ensures cs.Some? <==> forall k :: 0 <= k < |papers| ==> FormatCitation(papers[k], style).Some?
    ensures cs.Some? ==>
              |cs.value| == |papers| && forall k :: 0 <= k < |papers| ==> Some(cs.value[k]) == FormatCitation(papers[k], style)
  {
    FormatEach(papers, p => FormatCitation(p, style))
  }

  /** Every paper formatted by `format` in order, or None when one of them
      fails. */
  function FormatEach(papers: seq<Paper>, format: Paper -> Option<string>): (cs: Option<seq<string>>)
    ensures cs.Some? <==> forall k :: 0 <= k < |papers| ==> format(papers[k]).Some?
    ensures cs.Some? ==>
              |cs.value| == |papers| && forall k :: 0 <= k < |papers| ==> Some(cs.value[k]) == format(papers[k])
  {
    if papers == [] then Some([])
    else
      match format(papers[0])
      case None => None
      case Some(c) =>
        match FormatEach(papers[1..], format)
        case None =>
          assert exists k :: 0 < k < |papers| && format(papers[k]).None? by {
            var j :| 0 <= j < |papers[1..]| && format(papers[1..][j]).None?;
            assert papers[j + 1] == papers[1..][j];
          }
          None
        case Some(rest) =>
          assert forall k :: 0 < k < |papers| ==> papers[k] == papers[1..][k - 1];
          Some([c] + rest)
  }
}
