/**
 * The page summariser of the summary worker: every markdown file of the
 * request folder, in sorted order, is sent to the Mistral agent in its own
 * thread; each thread writes its answer (or an error text) into its slot of
 * a fixed-size list, and the slots are then copied into the result list,
 * with answers that report a filtering error labelled by page number.
 *
 * The Mistral client, the threads and their delays, and the file contents
 * are not modelled: what the completion call gives for each file is an input.
 */
module LlmSummarize {
  import opened Common
  import opened Strings
  import PdfExtractor

  const ResumePrefix: string := "Résumé: "
  const FilteringError: string := "Error during filtering"
  const WorkerError: string := "Error while summarizing page: "
  const NoResponse: string := "Error while summarizing page: No response from Mistral"
  const MarkdownExtension: string := ".md"

  /** An answer starting with the French `Résumé: ` label loses exactly that label. */
  function StripResume(res: string): string {
    if StartsWith(res, ResumePrefix) then res[8..] else res
  }

  /** The label is eight characters, so the slice removes the label and nothing else. */
  lemma StripResumeRemovesLabel(res: string)
    ensures StartsWith(res, ResumePrefix) ==> ResumePrefix + StripResume(res) == res
    ensures !StartsWith(res, ResumePrefix) ==> StripResume(res) == res
  {
    assert |ResumePrefix| == 8;
    if StartsWith(res, ResumePrefix) {
      assert res == res[..8] + res[8..];
    }
  }

  /** What the completion call gives: no response, an exception, or a response whose first choice reads `content`. */
  datatype Reply = NoReply | Raised(error: string) | Answer(content: string)

  predicate IsMarkdown(f: string) {
    EndsWith(f, MarkdownExtension)
  }

  /** The markdown files of the folder listing, in code-point order. */
  function MarkdownFiles(listing: seq<string>): (r: seq<string>)
    ensures Sorted(r)
    ensures multiset(r) == multiset(Filter(listing, IsMarkdown))
  {
    Sort(Filter(listing, IsMarkdown))
  }

  /** The files `summarize_page` works on are exactly the listing's `.md` files. */
  lemma MarkdownFilesMembers(listing: seq<string>, f: string)
    ensures f in MarkdownFiles(listing) <==> f in listing && IsMarkdown(f)
  {
    var r := MarkdownFiles(listing);
    assert f in r <==> f in multiset(r);
    assert f in Filter(listing, IsMarkdown) <==> f in multiset(Filter(listing, IsMarkdown));
  }

  /** Each `.md` name occurs among the sorted files as often as in the listing; no other name occurs. */
  lemma MarkdownFilesCount(listing: seq<string>, f: string)
    ensures multiset(MarkdownFiles(listing))[f] == if IsMarkdown(f) then multiset(listing)[f] else 0
  {
    FilterCount(listing, IsMarkdown, f);
  }

  /** The result entry for the `i`-th slot: a filtering error is labelled with its page number, anything else is kept. */
  function Entry(i: nat, slot: Option<string>): Option<string> {
    if slot.Some? && StartsWith(slot.value, FilteringError)
    then Some("Error while summarizing page " + NatToString(i + 1) + ": " + slot.value)
    else slot
  }

  /** Exactly the filtering errors are changed, and a changed entry ends with the original text. */
  lemma EntryLabelsOnlyFilteringErrors(i: nat, slot: Option<string>)
    ensures Entry(i, slot) != slot <==> slot.Some? && StartsWith(slot.value, FilteringError)
    ensures Entry(i, slot) != slot ==> Entry(i, slot).Some? && EndsWith(Entry(i, slot).value, slot.value)
  {
    if slot.Some? && StartsWith(slot.value, FilteringError) {
      var e := Entry(i, slot).value;
      assert |e| > |slot.value|;
      var p := "Error while summarizing page " + NatToString(i + 1) + ": ";
      assert e == p + slot.value;
      assert e[|e| - |slot.value|..] == slot.value;
    }
  }

  /**
   * The assembly loop of `summarize_page`: each slot is appended to the
   * results, labelled as `Entry` says.
   */
  method AssembleResults(slots: seq<Option<string>>) returns (results: seq<Option<string>>)
    ensures |results| == |slots|
    ensures forall i :: 0 <= i < |slots| ==> results[i] == Entry(i, slots[i])
  {
    results := [];
    for i := 0 to |slots|
      invariant |results| == i
      invariant forall k :: 0 <= k < i ==> results[k] == Entry(k, slots[k])
    {
      if slots[i].Some? && StartsWith(slots[i].value, FilteringError) {
        results := results + [Some("Error while summarizing page " + NatToString(i + 1) + ": " + slots[i].value)];
      } else {
        results := results + [slots[i]];
      }
    }
  }

  class LlmSummarize {
    /**
     * `MISTRAL_ASSISTANT_ID`. The Mistral client object is always present
     * (it is built even without an API key), so only the agent id can make
     * the worker skip its call.
     */
    const agentId: Option<string>

    constructor (agentId: Option<string>)
      ensures this.agentId == agentId
    {
      this.agentId := agentId;
    }

    /** `not self.agent_id` is false: an id is set and is not the empty string. */
    predicate Configured() {
      agentId.Some? && agentId.value != ""
    }

    /** `__summarize_page_worker`: the new content of its slot. */
    function WorkerSlot(slot: Option<string>, reply: Reply): Option<string> {
      if !Configured() then slot
      else match reply
        case NoReply => Some(NoResponse)
        case Raised(e) => Some(WorkerError + e)
        case Answer(content) => Some(StripResume(content))
    }

    /**
     * The worker's own error texts start `Error while summarizing page:`,
     * never `Error during filtering`, so the assembly leaves them as they are;
     * an unconfigured worker leaves its slot empty.
     */
    lemma WorkerErrorsNotRelabelled(i: nat, reply: Reply)
      ensures !reply.Answer? ==> Entry(i, WorkerSlot(None, reply)) == WorkerSlot(None, reply)
      ensures !Configured() ==> Entry(i, WorkerSlot(None, reply)) == None
      ensures Configured() && reply.Answer? ==>
        (Entry(i, WorkerSlot(None, reply)) != WorkerSlot(None, reply) <==> StartsWith(StripResume(reply.content), FilteringError))
    {
      assert WorkerError[6] != FilteringError[6];
      EntryLabelsOnlyFilteringErrors(i, WorkerSlot(None, reply));
    }

    /**
     * `summarize_page`: one slot per markdown file in sorted order, filled by
     * that file's worker, then assembled. `replies` gives the completion
     * result per file name. The custom prompt is passed to the worker, which
     * does not use it, so it is not a parameter here.
     */
    method SummarizePage(listing: seq<string>, replies: string -> Reply) returns (results: seq<Option<string>>)
      ensures var files := MarkdownFiles(listing);
        |results| == |files| &&
        forall i :: 0 <= i < |files| ==> results[i] == Entry(i, WorkerSlot(None, replies(files[i])))
    {
      var files := MarkdownFiles(listing);
      var tmp := new Option<string>[|files|](_ => None);
      for i := 0 to |files|
        invariant forall k :: 0 <= k < i ==> tmp[k] == WorkerSlot(None, replies(files[k]))
        invariant forall k :: i <= k < |files| ==> tmp[k] == None
      {
        tmp[i] := WorkerSlot(tmp[i], replies(files[i]));
      }
      results := AssembleResults(tmp[..]);
    }
  }

  // ---------------------------------------------------------------------------
  // Page order

  lemma DigitCode(d: nat)
    requires d < 10
    ensures Digit(d) as int == '0' as int + d
  {
  }

  /** The first differing character decides. */
  lemma LessAtHead(a: string, b: string)
    requires |a| > 0 && |b| > 0 && a[0] < b[0]
    ensures Less(a, b)
  {
  }

  /** Page `i` (0-based) below 9: the stem is `page_0` and one digit. */
  lemma PaddedStem(i: nat)
    requires i < 9
    ensures PdfExtractor.PageStem(i) + MarkdownExtension == "page_0" + ([Digit(i + 1)] + MarkdownExtension)
  {
    NatToStringSmall(i + 1);
  }

  /** Page `i` (0-based) from 9 to 98: the stem is `page_False` and two digits. */
  lemma UnpaddedStem(i: nat)
    requires 9 <= i < 99
    ensures PdfExtractor.PageStem(i) + MarkdownExtension
         == "page_False" + ([Digit((i + 1) / 10), Digit((i + 1) % 10)] + MarkdownExtension)
  {
    NatToStringSmall(i + 1);
  }

  /** Two-digit numbers compare as their renderings do. */
  lemma TwoDigitsOrdered(t: nat, u: nat, t': nat, u': nat)
    requires t < 10 && u < 10 && t' < 10 && u' < 10 && 10 * t + u < 10 * t' + u'
    ensures Less([Digit(t), Digit(u)] + MarkdownExtension, [Digit(t'), Digit(u')] + MarkdownExtension)
  {
    DigitCode(t);
    DigitCode(t');
    var a, b := [Digit(t), Digit(u)] + MarkdownExtension, [Digit(t'), Digit(u')] + MarkdownExtension;
    if t == t' {
      DigitCode(u);
      DigitCode(u');
      assert a[1..] == [Digit(u)] + MarkdownExtension && b[1..] == [Digit(u')] + MarkdownExtension;
      LessAtHead(a[1..], b[1..]);
    } else {
      LessAtHead(a, b);
    }
  }

  /** Consecutive pages below 100 have their markdown names in strictly increasing code-point order. */
  lemma ConsecutivePagesOrdered(i: nat)
    requires 0 < i < 99
    ensures Less(PdfExtractor.PageStem(i - 1) + MarkdownExtension, PdfExtractor.PageStem(i) + MarkdownExtension)
  {
    var a, b := PdfExtractor.PageStem(i - 1) + MarkdownExtension, PdfExtractor.PageStem(i) + MarkdownExtension;
    if i < 9 {
      var x, y := [Digit(i)] + MarkdownExtension, [Digit(i + 1)] + MarkdownExtension;
      PaddedStem(i - 1);
      PaddedStem(i);
      DigitCode(i);
      DigitCode(i + 1);
      LessAtHead(x, y);
      LessCommonPrefix("page_0", x, y);
    } else if i == 9 {
      var x, y := "0" + ([Digit(9)] + MarkdownExtension), "False" + ([Digit(1), Digit(0)] + MarkdownExtension);
      PaddedStem(8);
      UnpaddedStem(9);
      assert a == "page_" + x && b == "page_" + y;
      LessAtHead(x, y);
      LessCommonPrefix("page_", x, y);
    } else {
      var x, y := [Digit(i / 10), Digit(i % 10)] + MarkdownExtension, [Digit((i + 1) / 10), Digit((i + 1) % 10)] + MarkdownExtension;
      UnpaddedStem(i - 1);
      UnpaddedStem(i);
      TwoDigitsOrdered(i / 10, i % 10, (i + 1) / 10, (i + 1) % 10);
      LessCommonPrefix("page_False", x, y);
    }
  }

  /** Up to 99 pages, the markdown names in page order are already sorted. */
  lemma PageOrderSorted(n: nat)
    requires n <= 99
    ensures Sorted(PdfExtractor.MarkdownNames(n))
  {
    var names := PdfExtractor.MarkdownNames(n);
    forall i | 0 < i < n
      ensures LessEq(names[i - 1], names[i])
    {
      PdfExtractor.MarkdownNameAt(n, i - 1);
      PdfExtractor.MarkdownNameAt(n, i);
      ConsecutivePagesOrdered(i);
    }
  }

  /**
   * With up to 99 pages, whatever order the listing comes in, the `i`-th
   * summarised file is the markdown of page `i + 1`, so the labels of
   * `Entry` name the right page.
   */
  lemma SortedFilesFollowPages(listing: seq<string>, n: nat)
    requires n <= 99
    requires multiset(Filter(listing, IsMarkdown)) == multiset(PdfExtractor.MarkdownNames(n))
    ensures MarkdownFiles(listing) == PdfExtractor.MarkdownNames(n)
  {
    PageOrderSorted(n);
    SortedUnique(MarkdownFiles(listing), PdfExtractor.MarkdownNames(n));
  }

  /** `page_False100.md` sorts before `page_False11.md`, and before `page_False99.md`. */
  lemma HundredSortsEarly()
    ensures Less("page_False100.md", "page_False11.md")
    ensures !LessEq("page_False99.md", "page_False100.md")
  {
    LessAtHead("00.md", "1.md");
    LessCommonPrefix("page_False1", "00.md", "1.md");
    assert "page_False100.md" == "page_False1" + "00.md";
    assert "page_False11.md" == "page_False1" + "1.md";
    LessAtHead("100.md", "99.md");
    LessAsymmetric("100.md", "99.md");
    LessCommonPrefix("page_False", "99.md", "100.md");
    assert "page_False99.md" == "page_False" + "99.md";
    assert "page_False100.md" == "page_False" + "100.md";
  }

  /** The stems of pages 11, 99 and 100. */
  lemma LateStems()
    ensures PdfExtractor.PageStem(10) == "page_False11"
    ensures PdfExtractor.PageStem(98) == "page_False99"
    ensures PdfExtractor.PageStem(99) == "page_False100"
  {
    NatToStringSmall(11);
    NatToStringSmall(99);
    assert NatToString(10) == "10";
    assert NatToString(100) == NatToString(10) + "0";
  }

  /**
   * From 100 pages on the sorted order is no longer the page order: page
   * 100's markdown sorts before page 11's, and sorting moves it.
   */
  lemma PageOrderBrokenFrom100(n: nat)
    requires n >= 100
    ensures Less(PdfExtractor.MarkdownNames(n)[99], PdfExtractor.MarkdownNames(n)[10])
    ensures MarkdownFiles(PdfExtractor.MarkdownNames(n)) != PdfExtractor.MarkdownNames(n)
  {
    var names := PdfExtractor.MarkdownNames(n);
    LateNames(n);
    HundredSortsEarly();
    assert !Sorted(names);
  }

  lemma LateNames(n: nat)
    requires n >= 100
    ensures PdfExtractor.MarkdownNames(n)[10] == "page_False11.md"
    ensures PdfExtractor.MarkdownNames(n)[98] == "page_False99.md"
    ensures PdfExtractor.MarkdownNames(n)[99] == "page_False100.md"
  {
    var names := PdfExtractor.MarkdownNames(n);
    LateStems();
    assert names[10] == "page_False11.md" by {
      PdfExtractor.MarkdownNameAt(n, 10);
    }
    assert names[98] == "page_False99.md" by {
      PdfExtractor.MarkdownNameAt(n, 98);
    }
    assert names[99] == "page_False100.md" by {
      PdfExtractor.MarkdownNameAt(n, 99);
    }
  }
}
