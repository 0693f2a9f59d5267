/**
 * The PDF extractor of the summary worker: the uploaded `file.pdf` is split
 * into one file per page, the page files are picked out of the folder
 * listing, and each page is converted to markdown in its own process, the
 * processes being started in batches of `NB_THREADS`. Conversion reports
 * failure when any page recorded an error.
 *
 * The file system, PyPDF2, docling and the processes themselves are not
 * modelled: the folder is its listing, the reader's page count, the first
 * write that raises and what each process leaves on its queue are inputs.
 */
module PdfExtractor {
  import opened Common
  import opened Strings

  const PagePrefix: string := "page_"
  const UploadedFile: string := "file.pdf"

  const ExtractionError: string := "Error while extracting PDF content"
  const NoResult: string := "No result received from extraction process"
  const Success: string := "Success"
  const RangeStepZero: string := "range() arg 3 must not be zero"

  // ---------------------------------------------------------------------------
  // Page file names

  /**
   * The text `i < 9 and '0'` interpolates to: the string `'0'` when the
   * comparison holds, otherwise the value `False`, printed as `False`.
   */
  function Pad(i: nat): string {
    if i < 9 then "0" else "False"
  }

  /** The page file name without its extension, for the 0-based page `i`. */
  function PageStem(i: nat): string {
    PagePrefix + Pad(i) + NatToString(i + 1)
  }

  /** The file `__split_pdf` writes for the 0-based page `i`. */
  function PageFileName(i: nat): string {
    PageStem(i) + ".pdf"
  }

  /** The names of the first `n` pages, in page order. */
  function PageNames(n: nat): (r: seq<string>)
    ensures |r| == n
    ensures forall i :: 0 <= i < n ==> r[i] == PageFileName(i)
  {
    if n == 0 then [] else PageNames(n - 1) + [PageFileName(n - 1)]
  }

  /** The filter of `convert_pdf_content_to_markdown`: a `.pdf` file whose name starts with `page_`. */
  predicate IsPageFile(f: string) {
    EndsWith(f, ".pdf") && StartsWith(f, PagePrefix)
  }

  /** The markdown file a page is converted to: every `.pdf` in its name becomes `.md`. */
  function MarkdownName(page: string): string {
    ReplaceAll(page, ".pdf", ".md")
  }

  /** The markdown files of the first `n` pages, in page order: each stem with `.md`. */
  function MarkdownNames(n: nat): (r: seq<string>)
    ensures |r| == n
  {
    if n == 0 then [] else MarkdownNames(n - 1) + [PageStem(n - 1) + ".md"]
  }

  lemma {:induction false} MarkdownNameAt(n: nat, i: nat)
    requires i < n
    ensures MarkdownNames(n)[i] == PageStem(i) + ".md"
  {
    if i < n - 1 {
      MarkdownNameAt(n - 1, i);
    }
  }

  /** The `i`-th of the markdown names is the file the extraction of page `i` writes. */
  lemma MarkdownNamesAreRenamedPages(n: nat, i: nat)
    requires i < n
    ensures MarkdownNames(n)[i] == MarkdownName(PageFileName(i))
  {
    MarkdownNameAt(n, i);
    MarkdownOfPage(i);
  }

  /** A stem holds only letters, digits and `_`: no `.` at all. */
  lemma StemHasNoDot(i: nat)
    ensures '.' !in PageStem(i)
  {
    NatToStringRoundTrip(i + 1);
    var d := NatToString(i + 1);
    assert PageStem(i) == PagePrefix + Pad(i) + d;
    assert forall k :: 0 <= k < |d| ==> d[k] != '.';
  }

  /** The first pages are zero-padded, from the tenth on the pad is the word `False`. */
  lemma PageFileNameExamples()
    ensures PageFileName(0) == "page_01.pdf"
    ensures PageFileName(8) == "page_09.pdf"
    ensures PageFileName(9) == "page_False10.pdf"
    ensures PageFileName(99) == "page_False100.pdf"
  {
    assert NatToString(1) == "1" && NatToString(9) == "9";
    assert NatToString(10) == "10";
    assert NatToString(100) == "100";
  }

  /** Distinct pages get distinct files, so no page overwrites another. */
  lemma PageFileNamesDistinct(i: nat, j: nat)
    requires PageFileName(i) == PageFileName(j)
    ensures i == j
  {
    var a, b := PageFileName(i), PageFileName(j);
    if (i < 9) == (j < 9) {
      var k := |PagePrefix + Pad(i)|;
      assert a[k..|a| - 4] == NatToString(i + 1);
      assert b[k..|b| - 4] == NatToString(j + 1);
      NatToStringInjective(i + 1, j + 1);
    }
  }

  /** Every page file passes the filter; the uploaded file and the markdown files do not. */
  lemma FilterKeepsOnlyPages(i: nat)
    ensures IsPageFile(PageFileName(i))
    ensures !IsPageFile(UploadedFile)
    ensures !IsPageFile(MarkdownName(PageFileName(i)))
  {
    MarkdownOfPage(i);
    var m := PageStem(i) + ".md";
    assert m[|m| - 4..] == PageStem(i)[|PageStem(i)| - 1..] + ".md";
    assert m[|m| - 4] != '.' by { StemHasNoDot(i); }
    assert UploadedFile[0] != PagePrefix[0];
  }

  /** The markdown name of a page keeps its stem and swaps the extension. */
  lemma MarkdownOfPage(i: nat)
    ensures MarkdownName(PageFileName(i)) == PageStem(i) + ".md"
  {
    var body := PageStem(i);
    StemHasNoDot(i);
    forall k | 0 <= k < |body|
      ensures !StartsWith(body[k..] + ".pdf", ".pdf")
    {
      assert (body[k..] + ".pdf")[0] == body[k];
    }
    ReplaceAllSuffix(body, ".pdf", ".md");
  }

  /** Listing the fresh request folder after a split gives back exactly the pages, in page order. */
  lemma PagesOfFreshFolder(n: nat)
    ensures Filter([UploadedFile] + PageNames(n), IsPageFile) == PageNames(n)
  {
    var s := [UploadedFile] + PageNames(n);
    FilterKeepsOnlyPages(0);
    assert s[1..] == PageNames(n);
    forall i | 0 <= i < n
      ensures IsPageFile(PageNames(n)[i])
    {
      FilterKeepsOnlyPages(i);
    }
    FilterKeepsAll(PageNames(n), IsPageFile);
  }

  // ---------------------------------------------------------------------------
  // Splitting

  /**
   * `__split_pdf` once the reader has opened the file: the pages are written
   * one after the other; the first write that raises (`writeFails`, a page
   * index) ends the loop and the result is -1, otherwise the page count.
   */
  method SplitPdf(folder: seq<string>, pageCount: nat, writeFails: Option<nat>)
    returns (after: seq<string>, nbPages: int)
    ensures writeFails.Some? && writeFails.value < pageCount ==>
      nbPages == -1 && after == folder + PageNames(writeFails.value)
    ensures !(writeFails.Some? && writeFails.value < pageCount) ==>
      nbPages == pageCount && after == folder + PageNames(pageCount)
  {
    after := folder;
    var i := 0;
    while i < pageCount
      invariant 0 <= i <= pageCount
      invariant writeFails.Some? ==> i <= writeFails.value
      invariant after == folder + PageNames(i)
    {
      if writeFails.Some? && writeFails.value == i {
        return after, -1;
      }
      assert folder + PageNames(i + 1) == after + [PageFileName(i)];
      after := after + [PageFileName(i)];
      i := i + 1;
    }
    return after, pageCount;
  }

  // ---------------------------------------------------------------------------
  // Per-page extraction

  /** What `_extraction_worker` puts on its queue: `Success`, or the conversion error. */
  function WorkerMessage(conversion: Result<string>): string {
    if conversion.Ok? then Success else ExtractionError + ": " + conversion.message
  }

  /**
   * `__start_extraction_worker`: the error it records from what the process
   * left on its queue (`None` when nothing was left).
   */
  function RecordedError(queued: Option<string>): Option<string> {
    if queued.None? then Some(NoResult)
    else if StartsWith(queued.value, ExtractionError) then Some(queued.value)
    else None
  }

  /** A worker that ran to the end records an error exactly when the conversion raised. */
  lemma WorkerErrorRecorded(conversion: Result<string>)
    ensures RecordedError(Some(WorkerMessage(conversion))).Some? <==> conversion.Err?
    ensures conversion.Err? ==> RecordedError(Some(WorkerMessage(conversion))) == Some(WorkerMessage(conversion))
  {
    assert Success[0] != ExtractionError[0];
  }

  /** The errors recorded for the given pages, in page order. */
  function Errors(pages: seq<string>, queued: string -> Option<string>): seq<string> {
    if |pages| == 0 then []
    else
      var e := RecordedError(queued(pages[|pages| - 1]));
      Errors(pages[..|pages| - 1], queued) + (if e.Some? then [e.value] else [])
  }

  /** No error is recorded exactly when every page's process left a message that is not an extraction error. */
  lemma {:induction false} NoErrorsIffAllPagesOk(pages: seq<string>, queued: string -> Option<string>)
    ensures Errors(pages, queued) == [] <==> forall i :: 0 <= i < |pages| ==> RecordedError(queued(pages[i])).None?
  {
    if |pages| > 0 {
      var init := pages[..|pages| - 1];
      NoErrorsIffAllPagesOk(init, queued);
      assert forall i :: 0 <= i < |init| ==> init[i] == pages[i];
    }
  }

  // ---------------------------------------------------------------------------
  // Batches

  /** The indexes `lo, lo + 1, …, hi - 1`. */
  function Interval(lo: nat, hi: nat): (r: seq<nat>)
    requires lo <= hi
    ensures |r| == hi - lo
    ensures forall k :: 0 <= k < |r| ==> r[k] == lo + k
    decreases hi - lo
  {
    if lo == hi then [] else Interval(lo, hi - 1) + [hi - 1]
  }

  /** The batches laid end to end. */
  function Flatten(batches: seq<seq<nat>>): seq<nat> {
    if |batches| == 0 then [] else Flatten(batches[..|batches| - 1]) + batches[|batches| - 1]
  }

  lemma IntervalAppend(lo: nat, mid: nat, hi: nat)
    requires lo <= mid <= hi
    ensures Interval(lo, mid) + Interval(mid, hi) == Interval(lo, hi)
  {
  }

  lemma FlattenSnoc(batches: seq<seq<nat>>, b: seq<nat>)
    ensures Flatten(batches + [b]) == Flatten(batches) + b
  {
    assert (batches + [b])[..|batches|] == batches;
  }

  function Min(a: int, b: int): int {
    if a <= b then a else b
  }

  /**
   * The batch loop of `convert_pdf_content_to_markdown` for a positive
   * `NB_THREADS`: for each start `i` of `range(0, len(pages), threads)` the
   * slice `[i:i + threads]` is started and joined. Returns the errors the
   * pages recorded and the batches of page indexes.
   */
  method ExtractAll(pages: seq<string>, queued: string -> Option<string>, threads: int)
    returns (errors: seq<string>, batches: seq<seq<nat>>)
    requires threads > 0
    ensures errors == Errors(pages, queued)
    ensures Flatten(batches) == Interval(0, |pages|)
    ensures forall k :: 0 <= k < |batches| ==> 0 < |batches[k]| <= threads
    ensures forall k :: 0 <= k < |batches| - 1 ==> |batches[k]| == threads
  {
    var n := |pages|;
    errors, batches := [], [];
    var i := 0;
    while i < n
      invariant 0 <= i
      invariant Flatten(batches) == Interval(0, Min(i, n))
      invariant errors == Errors(pages[..Min(i, n)], queued)
      invariant forall k :: 0 <= k < |batches| ==> 0 < |batches[k]| <= threads
      invariant forall k :: 0 <= k < |batches| ==> |batches[k]| == threads || (k == |batches| - 1 && i >= n)
      decreases n - i
    {
      var end := Min(i + threads, n);
      var batch;
      errors, batch := ExtractBatch(pages, queued, i, end, errors);
      FlattenSnoc(batches, batch);
      IntervalAppend(0, i, end);
      batches := batches + [batch];
      i := i + threads;
    }
    assert pages[..n] == pages;
  }

  /** One batch: the pages `lo` to `hi - 1`, each adding the error it records, if any. */
  method ExtractBatch(pages: seq<string>, queued: string -> Option<string>, lo: nat, hi: nat, before: seq<string>)
    returns (errors: seq<string>, batch: seq<nat>)
    requires lo <= hi <= |pages| && before == Errors(pages[..lo], queued)
    ensures errors == Errors(pages[..hi], queued)
    ensures batch == Interval(lo, hi)
  {
    errors, batch := before, [];
    var j := lo;
    while j < hi
      invariant lo <= j <= hi
      invariant batch == Interval(lo, j)
      invariant errors == Errors(pages[..j], queued)
    {
      assert pages[..j + 1][..j] == pages[..j];
      var e := RecordedError(queued(pages[j]));
      if e.Some? {
        errors := errors + [e.value];
      }
      batch := batch + [j];
      j := j + 1;
    }
  }

  /** Every page index lies in exactly one batch, at the place its order gives it. */
  lemma {:induction false} BatchOfPage(batches: seq<seq<nat>>, n: nat, p: nat)
    requires Flatten(batches) == Interval(0, n) && p < n
    ensures exists k, q :: 0 <= k < |batches| && 0 <= q < |batches[k]| && batches[k][q] == p
    ensures forall k, q, k', q' ::
      (0 <= k < |batches| && 0 <= q < |batches[k]| && 0 <= k' < |batches| && 0 <= q' < |batches[k']| &&
       batches[k][q] == p && batches[k'][q'] == p) ==> k == k' && q == q'
  {
    assert Flatten(batches)[p] == p;
    FlattenPosition(batches, p);
    forall k, q, k', q' | 0 <= k < |batches| && 0 <= q < |batches[k]| && 0 <= k' < |batches| && 0 <= q' < |batches[k']|
      && batches[k][q] == p && batches[k'][q'] == p
      ensures k == k' && q == q'
    {
      var x := FlattenIndex(batches, k, q);
      var y := FlattenIndex(batches, k', q');
      assert x == y;
      FlattenIndexInjective(batches, k, q, k', q');
    }
  }

  /** The offset in `Flatten(batches)` of the `q`-th index of batch `k`. */
  function Offset(batches: seq<seq<nat>>, k: nat): (r: nat)
    requires k <= |batches|
    ensures r == |Flatten(batches[..k])|
  {
    if k == 0 then 0
    else
      assert batches[..k][..k - 1] == batches[..k - 1];
      Offset(batches, k - 1) + |batches[k - 1]|
  }

  /** Flattening keeps each element: element `q` of batch `k` sits at `Offset(batches, k) + q`. */
  lemma {:induction false} FlattenIndex(batches: seq<seq<nat>>, k: nat, q: nat) returns (x: nat)
    requires k < |batches| && q < |batches[k]|
    ensures x == Offset(batches, k) + q && x < |Flatten(batches)| && Flatten(batches)[x] == batches[k][q]
    decreases |batches|
  {
    x := Offset(batches, k) + q;
    var m := |batches|;
    var init := batches[..m - 1];
    FlattenSnoc(init, batches[m - 1]);
    assert batches == init + [batches[m - 1]];
    if k == m - 1 {
      assert batches[..k] == init;
    } else {
      assert init[k] == batches[k];
      OffsetPrefix(batches, m - 1, k);
      var y := FlattenIndex(init, k, q);
      assert y == x;
    }
  }

  lemma OffsetPrefix(batches: seq<seq<nat>>, m: nat, k: nat)
    requires k <= m <= |batches|
    ensures Offset(batches[..m], k) == Offset(batches, k)
  {
    assert batches[..m][..k] == batches[..k];
  }

  lemma {:induction false} FlattenIndexInjective(batches: seq<seq<nat>>, k: nat, q: nat, k': nat, q': nat)
    requires k < |batches| && q < |batches[k]| && k' < |batches| && q' < |batches[k']|
    requires Offset(batches, k) + q == Offset(batches, k') + q'
    ensures k == k' && q == q'
  {
    if k < k' {
      OffsetGrows(batches, k + 1, k');
    } else if k' < k {
      OffsetGrows(batches, k' + 1, k);
    }
  }

  lemma {:induction false} OffsetGrows(batches: seq<seq<nat>>, a: nat, b: nat)
    requires 0 < a <= b <= |batches|
    ensures Offset(batches, a) == Offset(batches, a - 1) + |batches[a - 1]|
    ensures Offset(batches, a) <= Offset(batches, b)
    decreases b - a
  {
    if a < b {
      OffsetGrows(batches, a + 1, b);
    }
  }

  /** Every position of `Flatten(batches)` comes from some batch. */
  lemma {:induction false} FlattenPosition(batches: seq<seq<nat>>, x: nat)
    requires x < |Flatten(batches)|
    ensures exists k, q :: 0 <= k < |batches| && 0 <= q < |batches[k]| && batches[k][q] == Flatten(batches)[x]
    decreases |batches|
  {
    var m := |batches|;
    var init := batches[..m - 1];
    FlattenSnoc(init, batches[m - 1]);
    assert batches == init + [batches[m - 1]];
    if x < |Flatten(init)| {
      FlattenPosition(init, x);
      var k, q :| 0 <= k < |init| && 0 <= q < |init[k]| && init[k][q] == Flatten(init)[x];
      assert batches[k][q] == Flatten(batches)[x];
    } else {
      var q := x - |Flatten(init)|;
      assert batches[m - 1][q] == Flatten(batches)[x];
    }
  }

  // ---------------------------------------------------------------------------
  // Conversion

  /** The class, of which only the upload folder is state; it is used to build paths. */
  class PdfExtractor {
    const uploadFolderPath: string

    constructor (uploadFolderPath: string)
      ensures this.uploadFolderPath == uploadFolderPath
    {
      this.uploadFolderPath := uploadFolderPath;
    }

    /**
     * `convert_pdf_content_to_markdown` for a request folder whose listing is
     * `folder`. `reader` is the page count PyPDF2 reads or the error it
     * raises (outside the `try`, so it escapes); `writeFails` the first page
     * whose write raises; `queued` what each page's process leaves on its
     * queue; `threads` the value of `NB_THREADS`. `Err` is an exception.
     */
    method ConvertPdfContentToMarkdown(folder: seq<string>, reader: Result<nat>, writeFails: Option<nat>,
                                       queued: string -> Option<string>, threads: int)
      returns (r: Result<bool>)
      ensures reader.Err? ==> r == Err(reader.message)
      ensures reader.Ok? && writeFails.Some? && writeFails.value < reader.value ==> r == Ok(false)
      ensures reader.Ok? && !(writeFails.Some? && writeFails.value < reader.value) ==>
        var pages := Filter(folder + PageNames(reader.value), IsPageFile);
        && (threads == 0 ==> r == Err(RangeStepZero))
        && (threads < 0 ==> r == Ok(true))
        && (threads > 0 ==> r == Ok(Errors(pages, queued) == []))
    {
      if reader.Err? {
        return Err(reader.message);
      }
      var after, nbPages := SplitPdf(folder, reader.value, writeFails);
      if nbPages == -1 {
        return Ok(false);
      }
      var pages := Filter(after, IsPageFile);
      if threads == 0 {
        return Err(RangeStepZero);
      }
      if threads < 0 {
        // `range(0, len(threads), NB_THREADS)` is empty: nothing is started and nothing recorded
        return Ok(true);
      }
      var errors, _ := ExtractAll(pages, queued, threads);
      return Ok(errors == []);
    }
  }
}
