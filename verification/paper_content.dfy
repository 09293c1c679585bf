/** Getting a paper's text for script generation: the ar5iv HTML rendering
    first, the PDF's extracted text next, and a note wrapping the abstract
    as the last resort. The paper agent and the serverless transcript
    service each carry a copy; they differ only in when the PDF is tried
    and in one sentence of the fallback note. */
module PaperContent {
  import opened Outcomes
  import opened Strings
  import Seqs
  import Decimal
  import HtmlText

  /** Shorter extracted text is treated as a failed extraction. */
  const MinChars := 500
  /** Longer PDF text is cut to this many characters. */
  const MaxChars := 100000
  const TruncationNote := "\n\n[... content truncated ...]"

  /** An HTTP reply. A request that raised is `None` where a reply is
      expected. */
  datatype Reply = Reply(status: int, body: string)

  /** The parts of the HTML pipeline that are library code: the regular
      expression that finds the `<article>` body, the one that finds the
      `ltx_page_content` division, and the tokenizer. */
  datatype Html = Html(
    article: string -> Option<string>,
    pageContent: string -> Option<string>,
    tokenize: string -> seq<HtmlText.Event>)

  /** ar5iv's error pages: a failed conversion or a "not found" notice in
      any letter case. */
  predicate IsErrorPage(body: string) {
    Contains(body, "Conversion failed") || Contains(LowerAscii(body), "not found")
  }

  /** The HTML that is handed to the extractor: the article body, else the
      page-content division, else the whole page. */
  function ArticleOf(body: string, html: Html): string {
    match html.article(body)
    case Some(a) => a
    case None => match html.pageContent(body) {
      case Some(c) => c
      case None => body
    }
  }

  /** `fetch_ar5iv_content`. */
  function Ar5ivContent(reply: Option<Reply>, html: Html): (r: Option<string>)
    ensures reply.None? || reply.value.status != 200 || IsErrorPage(reply.value.body) ==> r.None?
    ensures r.Some? ==> |r.value| >= MinChars
    ensures r.Some? ==> r.value == HtmlText.Extract(html.tokenize(ArticleOf(reply.value.body, html)))
    ensures r.Some? ==> !Contains(r.value, "\n\n\n") && !Contains(r.value, "  ") && Trimmed(r.value, IsPySpace)
    ensures (reply.Some? && reply.value.status == 200 && !IsErrorPage(reply.value.body)
             && |HtmlText.Extract(html.tokenize(ArticleOf(reply.value.body, html)))| >= MinChars) ==> r.Some?
  {
    match reply
    case None => None
    case Some(rep) =>
      if rep.status != 200 || IsErrorPage(rep.body) then None
      else
        var text := HtmlText.Extract(html.tokenize(ArticleOf(rep.body, html)));
        if |text| < MinChars then None else Some(text)
  }

  /** The banner put before each page's text. Page numbers count from 1. */
  function PageHeader(number: nat): (h: string)
    ensures |h| > 0 && h[0] == '\n'
  {
    "\n--- Page " + Decimal.NatToString(number) + " ---\n"
  }

  /** What page `k` (from 0) contributes: nothing for a blank page. */
  function PageBlock(k: nat, page: string): string {
    if Strip(page) != "" then PageHeader(k + 1) + page else ""
  }

  /** The joined text of the PDF's pages. */
  function PdfText(pages: seq<string>): string {
    Seqs.Blocks(PageBlock, pages)
  }

  /** The PDF yields no text at all exactly when every page is blank. */
  lemma PdfTextEmptyIffBlank(pages: seq<string>)
    ensures PdfText(pages) == "" <==> forall k :: 0 <= k < |pages| ==> Strip(pages[k]) == ""
  {
    Seqs.BlocksEmpty(PageBlock, pages);
    forall k | 0 <= k < |pages|
      ensures PageBlock(k, pages[k]) == "" <==> Strip(pages[k]) == ""
    {
      if Strip(pages[k]) != "" {
        assert |PageBlock(k, pages[k])| >= |PageHeader(k + 1)| > 0;
      }
    }
  }

  /** Cuts over-long text to `MaxChars` characters and appends the note;
      shorter text is returned as it is. */
  function Truncate(full: string): (r: string)
    ensures |full| <= MaxChars ==> r == full
    ensures |full| > MaxChars ==> |r| == MaxChars + |TruncationNote|
    ensures |full| > MaxChars ==> r[..MaxChars] == full[..MaxChars] && r[MaxChars..] == TruncationNote
  {
    if |full| > MaxChars then full[..MaxChars] + TruncationNote else full
  }

  /** `fetch_pdf_content`. `hasReader` is whether the PDF library could be
      imported; `pages` is the text of each page, or `None` when the
      download or the parse raised. */
  function PdfContent(hasReader: bool, pages: Option<seq<string>>): (r: Option<string>)
    ensures !hasReader || pages.None? ==> r.None?
    ensures pages.Some? && (forall k :: 0 <= k < |pages.value| ==> Strip(pages.value[k]) == "") ==> r.None?
    ensures r.Some? <==> hasReader && pages.Some? && |PdfText(pages.value)| >= MinChars
    ensures r.Some? ==> MinChars <= |r.value| <= MaxChars + |TruncationNote|
    ensures r.Some? ==> r.value == Truncate(PdfText(pages.value))
  {
    if !hasReader then None
    else match pages
      case None => None
      case Some(ps) =>
        var full := PdfText(ps);
        PdfTextEmptyIffBlank(ps);
        if |full| < MinChars then None else Some(Truncate(full))
  }

  /** Where the content came from, named as in the returned tag. */
  datatype Source = Ar5iv | Pdf | AbstractOnly {
    function Tag(): string {
      match this
      case Ar5iv => "ar5iv"
      case Pdf => "pdf"
      case AbstractOnly => "abstract"
    }
  }

  /** Python truthiness of an optional string. */
  predicate Truthy(o: Option<string>) {
    o.Some? && o.value != ""
  }

  /** The note around the abstract. `hedged` adds the sentence the paper
      agent's copy has and the serverless copy lacks. */
  function AbstractNote(abstractText: string, hedged: bool): (r: string)
    ensures Contains(r, abstractText)
  {
    var head := NoteHead(hedged);
    OccursBetween(head, abstractText, NoteTail);
    head + abstractText + NoteTail
  }

  function NoteHead(hedged: bool): string {
    "\n[Note: Full paper content could not be extracted. Generating script based on abstract\n"
      + "and the model's knowledge of the paper."
      + (if hedged then " The script may need more editing.]" else "]")
      + "\n\nAbstract:\n"
  }

  const NoteTail :=
    "\n\nPlease generate the podcast script based on:\n"
      + "1. The abstract above\n"
      + "2. Your training knowledge about this paper and related work\n"
      + "3. General understanding of the topic area\n\n"
      + "Focus on explaining the key concepts clearly for a podcast audience.\n"

  /** `fetch_paper_content`'s order: ar5iv text if any, then PDF text if
      the PDF is tried and yields any, then the abstract note. */
  function Choose(ar5iv: Option<string>, tryPdf: bool, pdf: Option<string>, note: string): (r: (string, Source))
    ensures r.1 == Ar5iv <==> Truthy(ar5iv)
    ensures r.1 == Pdf <==> !Truthy(ar5iv) && tryPdf && Truthy(pdf)
    ensures r.1 == Ar5iv ==> r.0 == ar5iv.value
    ensures r.1 == Pdf ==> r.0 == pdf.value
    ensures r.1 == AbstractOnly ==> r.0 == note
  {
    if Truthy(ar5iv) then (ar5iv.value, Ar5iv)
    else if tryPdf && Truthy(pdf) then (pdf.value, Pdf)
    else (note, AbstractOnly)
  }

  /** The paper agent's `fetch_paper_content`: the PDF is tried only when
      the PDF library is installed. */
  function AgentPaperContent(reply: Option<Reply>, html: Html, hasReader: bool,
                             pages: Option<seq<string>>, abstractText: string): (r: (string, Source))
    ensures r.1 == Pdf ==> hasReader
    ensures r.1 != AbstractOnly ==> |r.0| >= MinChars
    ensures r.1 == AbstractOnly ==> Contains(r.0, abstractText)
    ensures r.1 == AbstractOnly <==> Ar5ivContent(reply, html).None? && PdfContent(hasReader, pages).None?
  {
    var fromHtml := Ar5ivContent(reply, html);
    var fromPdf := PdfContent(hasReader, pages);
    Choose(fromHtml, hasReader, fromPdf, AbstractNote(abstractText, true))
  }

  /** The serverless `fetch_paper_content`: the PDF is always tried (the
      library is part of the service image). */
  function ServerlessPaperContent(reply: Option<Reply>, html: Html,
                                  pages: Option<seq<string>>, abstractText: string): (r: (string, Source))
    ensures r.1 != AbstractOnly ==> |r.0| >= MinChars
    ensures r.1 == AbstractOnly ==> Contains(r.0, abstractText)
    ensures r.1 == AbstractOnly <==> Ar5ivContent(reply, html).None? && PdfContent(true, pages).None?
  {
    var fromHtml := Ar5ivContent(reply, html);
    var fromPdf := PdfContent(true, pages);
    Choose(fromHtml, true, fromPdf, AbstractNote(abstractText, false))
  }

  /** The two copies agree whenever the PDF library is present, except
      for the wording of the abstract note. */
  lemma CopiesAgree(reply: Option<Reply>, html: Html, pages: Option<seq<string>>, abstractText: string)
    ensures AgentPaperContent(reply, html, true, pages, abstractText).1
         == ServerlessPaperContent(reply, html, pages, abstractText).1
    ensures AgentPaperContent(reply, html, true, pages, abstractText).1 != AbstractOnly ==>
              (AgentPaperContent(reply, html, true, pages, abstractText).0
               == ServerlessPaperContent(reply, html, pages, abstractText).0)
  {
  }

  /** `generate_transcript_web`'s check: a missing or empty `arxiv_id`
      is answered with an error and nothing is fetched. */
  const RequiredMessage := "arxiv_id is required"

  function ValidateTranscriptRequest(arxivId: Option<string>): (r: Result<string, string>)
    ensures r.Err? <==> !Truthy(arxivId)
    ensures r.Err? ==> r.error == RequiredMessage
    ensures r.Ok? ==> r.value == arxivId.value && r.value != ""
  {
    if Truthy(arxivId) then Ok(arxivId.value) else Err(RequiredMessage)
  }
}
