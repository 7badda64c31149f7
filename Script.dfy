/** The command-line variant, `extract_text_from_pdf` of main.py: the same page limit
    and batch loop as the web variants, but the text written is only each page's OCR
    text followed by a blank line, with no header and no page delimiters. An exception
    is not caught here: it ends the script, and nothing is written. */
module Script {
  import opened Common
  import opened Batching
  import opened Assembly

  /** The configuration block of main.py: `LANG`, `PAGES_PER_BATCH`, `MAX_PAGES`. */
  datatype Config = Config(lang: string, pagesPerBatch: nat, maxPages: Option<int>)

  /** The values main.py ships with: Hindi, batches of 5, the first 10 pages. */
  const Default := Config("hin", 5, Some(10))

  /** Each page's text followed by a blank line, in the order of `pages`. */
  function Plain(pages: seq<PageText>): string {
    if pages == [] then "" else Plain(pages[..|pages| - 1]) + (pages[|pages| - 1].text + "\n\n")
  }

  /** One run of the script; `Failed` is the exception that ends it. A run that
      succeeds has read the page count, used a non-zero step and written its text, and
      reports the limited page count, never more than the PDF has. */
  function ExtractPlain<Img>(e: Engines<Img>, c: Config): (o: Outcome)
    ensures o.Done? ==>
      && e.pageCount.Success? && c.pagesPerBatch >= 1 && e.writeError.None?
      && o.pagesProcessed == PagesToProcess(e.pageCount.value, c.maxPages) <= e.pageCount.value
  {
    if e.pageCount.Failure? then Failed(e.pageCount.error)
    else
      var pages := PagesToProcess(e.pageCount.value, c.maxPages);
      if c.pagesPerBatch == 0 then Failed(ZeroStepError)
      else
        var recognized := Recognize(Batches(pages, c.pagesPerBatch), e, c.lang);
        if recognized.Failure? then Failed(recognized.error)
        else if e.writeError.Some? then Failed(e.writeError.value)
        else Done(pages, Plain(recognized.value))
  }

  lemma PlainAppend(pages: seq<PageText>, page: PageText)
    ensures Plain(pages + [page]) == Plain(pages) + (page.text + "\n\n")
  {
    assert (pages + [page])[..|pages|] == pages;
  }

  lemma {:induction false} PlainConcat(a: seq<PageText>, b: seq<PageText>)
    ensures Plain(a + b) == Plain(a) + Plain(b)
    decreases |b|
  {
    if b == [] {
      assert a + b == a;
    } else {
      var n := |b| - 1;
      PlainConcat(a, b[..n]);
      SplitLast(a, b);
      PlainAppend(a + b[..n], b[n]);
      PlainAppend(b[..n], b[n]);
      ConcatAssoc(Plain(a), Plain(b[..n]), b[n].text + "\n\n");
    }
  }

  lemma AppendPlainStep(text: string, pages: seq<PageText>, page: PageText)
    ensures text + Plain(pages) + (page.text + "\n\n") == text + Plain(pages + [page])
  {
    PlainAppend(pages, page);
    ConcatAssoc(text, Plain(pages), page.text + "\n\n");
  }

  lemma AppendPlained(text: string, pages: seq<PageText>, more: seq<PageText>)
    ensures text + Plain(pages) + Plain(more) == text + Plain(pages + more)
  {
    PlainConcat(pages, more);
    ConcatAssoc(text, Plain(pages), Plain(more));
  }

  /** The inner loop `for page in pages`: each image's OCR text and a blank line are
      appended to `text`; the first OCR failure ends it. The numbering `first` is not
      part of the loop; it only names the pages for the specification. */
  method AppendPlainBatch<Img>(text: string, images: seq<Img>, ghost first: int,
                               ocr: (Img, string) -> Result<string>, lang: string)
    returns (r: Result<string>)
    ensures var pages := RecognizeImages(images, first, ocr, lang);
      r == if pages.Failure? then Failure(pages.error) else Success(text + Plain(pages.value))
  {
    var fullText := text;
    ghost var batchPages: seq<PageText> := [];
    var i := 0;
    while i < |images|
      invariant 0 <= i <= |images|
      invariant RecognizeImages(images[..i], first, ocr, lang) == Success(batchPages)
      invariant fullText == text + Plain(batchPages)
    {
      var pageText := ocr(images[i], lang);
      RecognizeImagesStep(images, i, first, batchPages, ocr, lang);
      if pageText.Failure? {
        return Failure(pageText.error);
      }
      fullText := fullText + (pageText.value + "\n\n");
      AppendPlainStep(text, batchPages, PageText(first + i, pageText.value));
      batchPages := batchPages + [PageText(first + i, pageText.value)];
      i := i + 1;
    }
    assert images[..i] == images;
    return Success(fullText);
  }

  /** The batch loop of main.py: each batch is rasterized and its pages' plain texts
      appended to `text`; the first failing rasterization or OCR call ends it. */
  method AppendPlainBatches<Img>(text: string, e: Engines<Img>, lang: string, size: nat, pages: int)
    returns (r: Result<string>)
    requires size >= 1
    ensures var recognized := Recognize(Batches(pages, size), e, lang);
      r == if recognized.Failure? then Failure(recognized.error) else Success(text + Plain(recognized.value))
  {
    var fullText := text;
    ghost var done: seq<Batch> := [];
    ghost var recognized: seq<PageText> := [];
    var start := 1;
    while start <= pages
      invariant done + BatchesFrom(start, pages, size) == Batches(pages, size)
      invariant Recognize(done, e, lang) == Success(recognized)
      invariant fullText == text + Plain(recognized)
      decreases pages + 1 - start
    {
      var end := Min(start + size - 1, pages);
      AdvanceBatches(done, start, pages, size, recognized, e, lang);
      var images := e.rasterize(start, end);
      if images.Failure? {
        return Failure(images.error);
      }
      var appended := AppendPlainBatch(fullText, images.value, start, e.ocr, lang);
      if appended.Failure? {
        return Failure(appended.error);
      }
      ghost var batchPages := RecognizeImages(images.value, start, e.ocr, lang).value;
      AppendPlained(text, recognized, batchPages);
      fullText := appended.value;
      done := done + [Batch(start, end)];
      recognized := recognized + batchPages;
      start := start + size;
    }
    assert done == Batches(pages, size);
    return Success(fullText);
  }

  /** main.py's `extract_text_from_pdf`: the batch loop appends the plain page texts,
      and the text is written once, after the last batch. */
  method ExtractPlainText<Img>(e: Engines<Img>, c: Config) returns (o: Outcome)
    ensures o == ExtractPlain(e, c)
  {
    if e.pageCount.Failure? {
      return Failed(e.pageCount.error);
    }
    var pages := PagesToProcess(e.pageCount.value, c.maxPages);
    if c.pagesPerBatch == 0 {
      return Failed(ZeroStepError);
    }
    var appended := AppendPlainBatches("", e, c.lang, c.pagesPerBatch, pages);
    if appended.Failure? {
      return Failed(appended.error);
    }
    if e.writeError.Some? {
      return Failed(e.writeError.value);
    }
    return Done(pages, appended.value);
  }

  /** The script and the web variants fail on the same inputs with the same message,
      process the same number of pages, and OCR the same pages in the same order; they
      differ only in how the recognised pages are laid out in the text. */
  lemma PlainAgreesWithNumbered<Img>(e: Engines<Img>, c: Config)
    ensures var numbered := Extract(e, c.lang, c.pagesPerBatch, c.maxPages);
      var plain := ExtractPlain(e, c);
      && (plain.Failed? <==> numbered.Failed?)
      && (plain.Failed? ==> plain.message == numbered.message)
      && (plain.Done? ==>
            && c.pagesPerBatch >= 1
            && plain.pagesProcessed == numbered.pagesProcessed
            && var recognized := Recognize(Batches(plain.pagesProcessed, c.pagesPerBatch), e, c.lang);
               && recognized.Success?
               && plain.written == Plain(recognized.value)
               && numbered.written == Header(e.pageCount.value, plain.pagesProcessed, c.lang, e.date) + Render(recognized.value))
  {
  }

  /** When the rasterizer returns each requested page's image in order, the script
      writes, for each page `k` from 1 to `pages_to_process` in order, the OCR text of
      page `k` followed by a blank line, and nothing else. */
  lemma ExtractPlainTranscript<Img>(e: Engines<Img>, c: Config, render: int -> Img)
    requires RastersInOrder(e.rasterize, render)
    ensures var o := ExtractPlain(e, c);
      o.Done? ==>
        && e.pageCount.Success? && c.pagesPerBatch >= 1
        && var pages := PagesToProcess(e.pageCount.value, c.maxPages);
           var recognized := Recognize(Batches(pages, c.pagesPerBatch), e, c.lang);
           && recognized.Success?
           && o.pagesProcessed == pages
           && o.written == Plain(recognized.value)
           && |recognized.value| == (if pages < 0 then 0 else pages)
           && forall i :: 0 <= i < |recognized.value| ==>
                e.ocr(render(i + 1), c.lang) == Success(recognized.value[i].text)
  {
    ExtractTranscript(e, c.lang, c.pagesPerBatch, c.maxPages, render);
  }

  /** With no page limit, a 12-page PDF is rasterized as pages 1-5, 6-10 and 11-12;
      with the shipped limit of 10 only the first two batches remain. */
  lemma TwelvePages()
    ensures Batches(PagesToProcess(12, None), 5) == [Batch(1, 5), Batch(6, 10), Batch(11, 12)]
    ensures Batches(PagesToProcess(12, Default.maxPages), Default.pagesPerBatch) == [Batch(1, 5), Batch(6, 10)]
  {
    assert BatchesFrom(16, 12, 5) == [];
    assert BatchesFrom(11, 12, 5) == [Batch(11, 12)];
    assert BatchesFrom(11, 10, 5) == [];
  }
}
