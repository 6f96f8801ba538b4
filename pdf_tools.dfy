/** The PDF tools: splitting, merging, rearranging, converting to PDF and extracting text.
    A document is the sequence of its pages; opening a document either yields its pages or
    fails with the text of the exception the PDF library raised. What a tool writes to disk
    is reported as a list of written files, each with the pages it holds. */
module PdfTools {
  import opened Wrappers
  import opened Strings
  import opened Sequences
  import opened Paths
  import opened Base
  import opened PageRanges

  /** An opaque page; `text` is what text extraction finds on it (None when it finds nothing). */
  datatype Page = Page(id: nat, text: Option<string>)

  /** Opening a PDF: its pages, or the message of the exception raised while reading it. */
  type ReadOutcome = Result<seq<Page>, string>

  /** A PDF a tool wrote: its path and its pages, in order. */
  datatype Written = Written(path: string, pages: seq<Page>)

  /** What one call of a tool's `process` amounts to: the result it returns and the files it wrote. */
  datatype ToolRun = ToolRun(result: ProcessingResult, written: seq<Written>)

  /** 1-based page numbers for 0-based positions. */
  function OneBased(ix: seq<int>): (r: seq<int>)
    ensures |r| == |ix| && forall k :: 0 <= k < |ix| ==> r[k] == ix[k] + 1
  {
    seq(|ix|, k requires 0 <= k < |ix| => ix[k] + 1)
  }

  // ---------------------------------------------------------------- PDFSplitter

  function SplitFailure(e: string): (run: ToolRun)
    ensures !run.result.success && run.written == [] && run.result.outputPath.None?
    ensures run.result.message == "Failed to split PDF: " + e
  {
    ToolRun(ProcessingResult(false, "Failed to split PDF: " + e), [])
  }

  /** The message `with_name` raises with when the path has no final component. */
  function EmptyNameError(p: string): (msg: string)
    ensures |msg| == |p| + 31 && msg[11..11 + |p|] == p
  {
    "PosixPath('" + p + "') has an empty name"
  }

  lemma DigitsHaveNoSeparator(s: string)
    requires AllDigits(s)
    ensures '/' !in s && '.' !in s
  {
    forall k | 0 <= k < |s| ensures s[k] != '/' && s[k] != '.' { assert IsDigit(s[k]); }
  }

  /** `f"{stem}_page_{k+1}.pdf"`: the name of the file holding the page at position `k`. */
  function PageFileName(out: string, k: nat): (name: string)
    ensures name != [] && '/' !in name
  {
    var stem, digits := Stem(out), IntToString(k + 1);
    StemHasNoSeparator(out);
    DigitsHaveNoSeparator(digits);
    PageNameClean(stem, digits);
    stem + "_page_" + digits + ".pdf"
  }

  /** Joining separator-free parts with the fixed pieces of a page name adds no separator. */
  lemma PageNameClean(stem: string, digits: string)
    requires '/' !in stem && '/' !in digits
    ensures var name := stem + "_page_" + digits + ".pdf"; name != [] && '/' !in name
  {
    var infix, ext := "_page_", ".pdf";
    assert '/' !in infix && '/' !in ext && |ext| == 4;
  }

  /** `base.with_name(...)`: the page file sits next to the requested output. */
  function PageFilePath(out: string, k: nat): string {
    WithName(out, PageFileName(out, k))
  }

  /** The paths of the per-page files, in page order. */
  function PageFilePaths(out: string, n: nat): (r: seq<string>)
    ensures |r| == n && forall k :: 0 <= k < n ==> r[k] == PageFilePath(out, k)
  {
    seq(n, k requires 0 <= k < n => PageFilePath(out, k))
  }

  /** One entry of the `outputs` list: the file holding a selection, or one page's file. */
  datatype OutputEntry =
    | SelectionOutput(path: string, url: string, pages: seq<int>)
    | PageOutput(path: string, url: string, page: int)
  {
    function ToJson(): Json {
      match this
      case SelectionOutput(p, u, ns) => JObject(map["output_path" := JStr(p), "output_url" := JStr(u), "pages" := IntList(ns)])
      case PageOutput(p, u, n) => JObject(map["output_path" := JStr(p), "output_url" := JStr(u), "page" := JInt(n)])
    }
  }

  function EntriesJson(es: seq<OutputEntry>): (j: Json)
    ensures j.JList? && |j.items| == |es|
  {
    JList(seq(|es|, k requires 0 <= k < |es| => es[k].ToJson()))
  }

  /** The `outputs` entries of the per-page files. */
  function PageEntries(paths: seq<string>, urlFor: string -> string): (r: seq<OutputEntry>)
    ensures |r| == |paths|
    ensures forall k :: 0 <= k < |paths| ==> r[k] == PageOutput(paths[k], OutputUrl(urlFor, paths[k]), k + 1)
  {
    seq(|paths|, k requires 0 <= k < |paths| => PageOutput(paths[k], OutputUrl(urlFor, paths[k]), k + 1))
  }

  /** The per-page files: the page at position `k` alone in the file at `paths[k]`. */
  function PageFiles(paths: seq<string>, doc: seq<Page>): (r: seq<Written>)
    requires |paths| == |doc|
    ensures |r| == |doc| && forall k :: 0 <= k < |doc| ==> r[k] == Written(paths[k], [doc[k]])
  {
    seq(|doc|, k requires 0 <= k < |doc| => Written(paths[k], [doc[k]]))
  }

  function SplitDone(out: string, urlFor: string -> string, outputs: seq<OutputEntry>, total: nat): ProcessingResult {
    ProcessingResult(true, "PDF split successfully", Some(out), Some(OutputUrl(urlFor, out)),
                     Some(map["outputs" := EntriesJson(outputs), "total_pages" := JInt(total)]))
  }

  function SplitInMemory(ix: seq<int>): ToolRun {
    ToolRun(ProcessingResult(true, "Split in memory", metadata := Some(map["pages" := IntList(ix)])), [])
  }

  /** `PDFSplitter.process(pages)`. A page-range text that selects at least one page gives one
      file with those pages in the order selected; no text, or a text that selects nothing,
      gives one file per page. Without an output path nothing is written and the metadata
      lists 0-based positions. */
  function Split(outputPath: Option<string>, read: ReadOutcome, pages: Option<string>,
                 urlFor: string -> string): (run: ToolRun)
    ensures run.result.success ==> read.Ok?
    ensures !run.result.success || outputPath.None? ==> run.written == []
    ensures run.result.success && outputPath.Some? ==> run.result.outputPath == outputPath
  {
    match read
    case Err(e) => SplitFailure(e)
    case Ok(doc) =>
      var total := |doc|;
      var selection := if pages.Some? && pages.value != [] then PageRanges.PageRanges(pages, total) else Ok([]);
      match selection
      case Err(re) => SplitFailure(re.Message())
      case Ok(ix) =>
        if ix != [] then
          if outputPath.None? then SplitInMemory(ix)
          else
            var out := outputPath.value;
            var entry := SelectionOutput(out, OutputUrl(urlFor, out), OneBased(ix));
            ToolRun(SplitDone(out, urlFor, [entry], total), [Written(out, Select(doc, ix))])
        else if outputPath.None? then SplitInMemory(Interval(0, total))
        else
          var out := outputPath.value;
          if total > 0 && Name(out) == [] then SplitFailure(EmptyNameError(out))
          else
            var paths := PageFilePaths(out, total);
            ToolRun(SplitDone(out, urlFor, PageEntries(paths, urlFor), total), PageFiles(paths, doc))
  }

  /** The writer loop: the pages at the given positions, in that order. */
  method CopyPages(doc: seq<Page>, ix: seq<int>) returns (pages: seq<Page>)
    requires InBounds(ix, |doc|)
    ensures pages == Select(doc, ix)
  {
    pages := [];
    for j := 0 to |ix|
      invariant pages == Select(doc, ix[..j])
    {
      assert InBounds(ix[..j + 1], |doc|);
      assert Select(doc, ix[..j + 1]) == Select(doc, ix[..j]) + [doc[ix[j]]];
      pages := pages + [doc[ix[j]]];
    }
    assert ix[..|ix|] == ix;
  }

  /** The loop writing one file per page, the page at position `k` to `paths[k]`. */
  method WriteEachPage(paths: seq<string>, doc: seq<Page>, urlFor: string -> string)
    returns (outputs: seq<OutputEntry>, written: seq<Written>)
    requires |paths| == |doc|
    ensures outputs == PageEntries(paths, urlFor) && written == PageFiles(paths, doc)
  {
    outputs, written := [], [];
    for k := 0 to |doc|
      invariant outputs == PageEntries(paths[..k], urlFor)
      invariant written == PageFiles(paths[..k], doc[..k])
    {
      var path := paths[k];
      outputs := outputs + [PageOutput(path, OutputUrl(urlFor, path), k + 1)];
      written := written + [Written(path, [doc[k]])];
    }
    assert paths[..|doc|] == paths && doc[..|doc|] == doc;
  }

  /** `PDFSplitter.process`, step by step. */
  method SplitPdf(tool: ToolBase, read: ReadOutcome, pages: Option<string>, urlFor: string -> string)
    returns (run: ToolRun)
    ensures run == Split(tool.outputPath, read, pages, urlFor)
  {
    if read.Err? {
      return SplitFailure(read.error);
    }
    var doc := read.value;
    var ix: seq<int> := [];
    if pages.Some? && pages.value != [] {
      var parsed := ParsePageRanges(pages, |doc|);
      if parsed.Err? {
        return SplitFailure(parsed.error.Message());
      }
      ix := parsed.value;
    }
    if ix != [] {
      var selected := CopyPages(doc, ix);
      if tool.outputPath.None? {
        return SplitInMemory(ix);
      }
      var out := tool.outputPath.value;
      var entry := SelectionOutput(out, OutputUrl(urlFor, out), OneBased(ix));
      return ToolRun(SplitDone(out, urlFor, [entry], |doc|), [Written(out, selected)]);
    }
    if tool.outputPath.None? {
      return SplitInMemory(Interval(0, |doc|));
    }
    var out := tool.outputPath.value;
    if |doc| > 0 && Name(out) == [] {
      return SplitFailure(EmptyNameError(out));
    }
    var outputs, written := WriteEachPage(PageFilePaths(out, |doc|), doc, urlFor);
    return ToolRun(SplitDone(out, urlFor, outputs, |doc|), written);
  }

  /** The pages of the written files, file by file. */
  function WrittenPages(ws: seq<Written>): (r: seq<seq<Page>>)
    ensures |r| == |ws| && forall k :: 0 <= k < |ws| ==> r[k] == ws[k].pages
  {
    seq(|ws|, k requires 0 <= k < |ws| => ws[k].pages)
  }

  /** A selection of at least one page is written to the requested output as one document
      holding the selected pages in the order the range text lists them. */
  lemma SplitSelection(out: string, doc: seq<Page>, text: string, urlFor: string -> string)
    requires text != [] && PageRanges.PageRanges(Some(text), |doc|).Ok?
    requires PageRanges.PageRanges(Some(text), |doc|).value != []
    ensures var ix := PageRanges.PageRanges(Some(text), |doc|).value;
            var run := Split(Some(out), Ok(doc), Some(text), urlFor);
            run.result.success && run.result.outputPath == Some(out) &&
            run.written == [Written(out, Select(doc, ix))]
  {
  }

  /** "a-b" within the document writes pages a..b, in order, to one file. */
  lemma SplitClosedRange(out: string, doc: seq<Page>, a: nat, b: nat, urlFor: string -> string)
    requires 1 <= a <= b <= |doc|
    ensures var run := Split(Some(out), Ok(doc), Some(NatToString(a) + "-" + NatToString(b)), urlFor);
            run.result.success && run.written == [Written(out, doc[a - 1..b])]
  {
    var text := NatToString(a) + "-" + NatToString(b);
    assert PageRanges.PageRanges(Some(text), |doc|) == Ok(Interval(a - 1, b)) by {
      ClosedRange(a, b, |doc|);
      assert Min(b, |doc|) == b;
    }
    SplitInterval(out, doc, text, a, b, urlFor);
  }

  lemma SplitInterval(out: string, doc: seq<Page>, text: string, a: nat, b: nat, urlFor: string -> string)
    requires 1 <= a <= b <= |doc| && text != []
    requires PageRanges.PageRanges(Some(text), |doc|) == Ok(Interval(a - 1, b))
    ensures var run := Split(Some(out), Ok(doc), Some(text), urlFor);
            run.result.success && run.written == [Written(out, doc[a - 1..b])]
  {
    var run := Split(Some(out), Ok(doc), Some(text), urlFor);
    SelectInterval(doc, a - 1, b);
    assert run.result.success && run.written == [Written(out, Select(doc, Interval(a - 1, b)))] by {
      SplitSelection(out, doc, text, urlFor);
    }
  }

  /** No range text, or one that selects nothing, writes one file per page: the file for the
      page at position k holds that page alone, sits next to the requested output and is
      named after its stem and the 1-based page number. Read in order, the files give the
      document back. */
  lemma SplitEveryPage(out: string, doc: seq<Page>, pages: Option<string>, urlFor: string -> string)
    requires pages.None? || pages.value == [] || PageRanges.PageRanges(pages, |doc|) == Ok([])
    requires Name(out) != []
    ensures var run := Split(Some(out), Ok(doc), pages, urlFor);
            run.result.success && |run.written| == |doc| &&
            (forall k :: 0 <= k < |doc| ==>
               run.written[k].pages == [doc[k]] &&
               Parent(run.written[k].path) == Parent(out) &&
               Name(run.written[k].path) == Stem(out) + "_page_" + IntToString(k + 1) + ".pdf") &&
            Flatten(WrittenPages(run.written)) == doc
  {
    var run := Split(Some(out), Ok(doc), pages, urlFor);
    assert run.written == PageFiles(PageFilePaths(out, |doc|), doc);
    assert WrittenPages(run.written) == seq(|doc|, k requires 0 <= k < |doc| => [doc[k]]);
    FlattenSingletons(doc);
  }

  /** Different pages go to different files. */
  lemma PageFilePathsDistinct(out: string, j: nat, k: nat)
    requires j != k
    ensures PageFilePath(out, j) != PageFilePath(out, k)
  {
    PageFileNamesDistinct(out, j, k);
  }

  lemma PageFileNamesDistinct(out: string, j: nat, k: nat)
    requires j != k
    ensures PageFileName(out, j) != PageFileName(out, k)
  {
    var dj, dk := IntToString(j + 1), IntToString(k + 1);
    assert dj != dk by {
      if dj == dk {
        IntToStringInjective(j + 1, k + 1);
      }
    }
    PageNamesDiffer(Stem(out), dj, dk);
  }

  /** Page names with different numbers differ. */
  lemma PageNamesDiffer(stem: string, dj: string, dk: string)
    requires dj != dk
    ensures stem + "_page_" + dj + ".pdf" != stem + "_page_" + dk + ".pdf"
  {
    var prefix := stem + "_page_";
    if prefix + dj + ".pdf" == prefix + dk + ".pdf" {
      CancelAround(prefix, dj, dk, ".pdf");
    }
  }

  lemma CancelAround(p: string, a: string, b: string, q: string)
    requires p + a + q == p + b + q
    ensures a == b
  {
    var s := p + a + q;
    assert |a| == |b|;
    assert s[|p|..|p| + |a|] == a;
    assert (p + b + q)[|p|..|p| + |b|] == b;
  }

  /** A lone comma selects nothing, so it splits like no range text at all. */
  lemma LoneCommaSplitsEveryPage(outputPath: Option<string>, read: ReadOutcome, urlFor: string -> string)
    ensures Split(outputPath, read, Some(","), urlFor) == Split(outputPath, read, None, urlFor)
  {
    if read.Ok? {
      LoneComma(|read.value|);
    }
  }

  /** A failure to read the document, or a range text the parser rejects, is reported as a
      failed split naming the cause; nothing is written. */
  lemma SplitFailures(outputPath: Option<string>, read: ReadOutcome, pages: Option<string>, urlFor: string -> string)
    ensures read.Err? ==> Split(outputPath, read, pages, urlFor)
                          == ToolRun(ProcessingResult(false, "Failed to split PDF: " + read.error), [])
    ensures read.Ok? && pages.Some? && pages.value != [] && PageRanges.PageRanges(pages, |read.value|).Err? ==>
              Split(outputPath, read, pages, urlFor)
              == ToolRun(ProcessingResult(false, "Failed to split PDF: " + PageRanges.PageRanges(pages, |read.value|).error.Message()), [])
  {
  }

  /** Without an output path nothing is written, and the metadata lists the 0-based positions
      that were selected (every position when none were). */
  lemma SplitInMemoryPositions(read: ReadOutcome, pages: Option<string>, urlFor: string -> string)
    requires read.Ok?
    requires pages.None? || pages.value == [] || PageRanges.PageRanges(pages, |read.value|).Ok?
    ensures var run := Split(None, read, pages, urlFor);
            var ix := if pages.None? || pages.value == [] || PageRanges.PageRanges(pages, |read.value|).value == []
                      then Interval(0, |read.value|) else PageRanges.PageRanges(pages, |read.value|).value;
            run.result.success && run.written == [] &&
            run.result.metadata == Some(map["pages" := IntList(ix)])
  {
  }

  // ---------------------------------------------------------------- PDFMerger

  /** The inputs' pages, file after file; the first file that cannot be read stops the merge. */
  function MergedPages(paths: seq<string>, open: string -> ReadOutcome): (r: ReadOutcome)
    ensures r.Err? ==> exists k :: 0 <= k < |paths| && open(paths[k]) == Err(r.error)
    decreases |paths|
  {
    if paths == [] then Ok([])
    else
      var before :- MergedPages(paths[..|paths| - 1], open);
      var doc :- open(paths[|paths| - 1]);
      Ok(before + doc)
  }

  /** `[p.name for p in paths]`. */
  function Names(paths: seq<string>): (r: seq<string>)
    ensures |r| == |paths| && forall k :: 0 <= k < |paths| ==> r[k] == Name(paths[k])
  {
    seq(|paths|, k requires 0 <= k < |paths| => Name(paths[k]))
  }

  /** `PDFMerger.process()`. */
  function Merge(paths: seq<string>, outputPath: Option<string>, open: string -> ReadOutcome,
                 urlFor: string -> string): (run: ToolRun)
    ensures run.result.success <==> MergedPages(paths, open).Ok?
    ensures run.written != [] <==> run.result.success && outputPath.Some?
  {
    match MergedPages(paths, open)
    case Err(e) => ToolRun(ProcessingResult(false, "Failed to merge PDFs: " + e), [])
    case Ok(pages) =>
      if outputPath.None? then
        ToolRun(ProcessingResult(true, "Merged in memory", metadata := Some(map["files" := StrList(Names(paths))])), [])
      else
        var out := outputPath.value;
        ToolRun(ProcessingResult(true, "PDFs merged successfully", Some(out), Some(OutputUrl(urlFor, out)),
                                 Some(map["files" := StrList(paths), "total_pages" := JInt(|pages|)])),
                [Written(out, pages)])
  }

  /** A merger holds its input paths and its output path (absent or empty meaning none);
      opening a path is a parameter of `Process`. */
  class PdfMerger {
    const inputPaths: seq<string>
    const outputPath: Option<string>

    constructor (inputPaths: seq<string>, outputPath: Option<string>)
      ensures this.inputPaths == inputPaths && this.outputPath == StoredPath(outputPath)
    {
      this.inputPaths := inputPaths;
      this.outputPath := StoredPath(outputPath);
    }

    /** The loop adding each input's pages and counting them. */
    method Process(open: string -> ReadOutcome, urlFor: string -> string) returns (run: ToolRun)
      ensures run == Merge(inputPaths, outputPath, open, urlFor)
    {
      var pages: seq<Page> := [];
      var totalPages := 0;
      for k := 0 to |inputPaths|
        invariant MergedPages(inputPaths[..k], open) == Ok(pages)
        invariant totalPages == |pages|
      {
        assert inputPaths[..k + 1][..k] == inputPaths[..k];
        var read := open(inputPaths[k]);
        if read.Err? {
          MergedPagesErrorSticks(inputPaths, k + 1, open);
          return ToolRun(ProcessingResult(false, "Failed to merge PDFs: " + read.error), []);
        }
        pages := pages + read.value;
        totalPages := totalPages + |read.value|;
      }
      assert inputPaths[..|inputPaths|] == inputPaths;
      if outputPath.None? {
        return ToolRun(ProcessingResult(true, "Merged in memory", metadata := Some(map["files" := StrList(Names(inputPaths))])), []);
      }
      var out := outputPath.value;
      return ToolRun(ProcessingResult(true, "PDFs merged successfully", Some(out), Some(OutputUrl(urlFor, out)),
                                      Some(map["files" := StrList(inputPaths), "total_pages" := JInt(totalPages)])),
                     [Written(out, pages)]);
    }
  }

  lemma {:induction false} MergedPagesErrorSticks(paths: seq<string>, m: nat, open: string -> ReadOutcome)
    requires m <= |paths| && MergedPages(paths[..m], open).Err?
    ensures MergedPages(paths, open) == MergedPages(paths[..m], open)
    decreases |paths| - m
  {
    if m < |paths| {
      assert paths[..m + 1][..m] == paths[..m];
      MergedPagesErrorSticks(paths, m + 1, open);
    } else {
      assert paths[..m] == paths;
    }
  }

  /** The documents the paths open to, when all of them open. */
  function Documents(paths: seq<string>, open: string -> ReadOutcome): (docs: seq<seq<Page>>)
    requires forall k :: 0 <= k < |paths| ==> open(paths[k]).Ok?
    ensures |docs| == |paths| && forall k :: 0 <= k < |paths| ==> docs[k] == open(paths[k]).value
  {
    seq(|paths|, k requires 0 <= k < |paths| => open(paths[k]).value)
  }

  /** When every input opens, the merged document is their concatenation and its page count
      is the sum of theirs. */
  lemma {:induction false} MergedPagesConcatenate(paths: seq<string>, open: string -> ReadOutcome)
    requires forall k :: 0 <= k < |paths| ==> open(paths[k]).Ok?
    ensures MergedPages(paths, open) == Ok(Flatten(Documents(paths, open)))
    ensures |MergedPages(paths, open).value| == SumLengths(Documents(paths, open))
    decreases |paths|
  {
    if paths != [] {
      var init := paths[..|paths| - 1];
      MergedPagesConcatenate(init, open);
      assert Documents(paths, open)[..|paths| - 1] == Documents(init, open);
    }
  }

  /** When every input opens, a merge with an output path succeeds and writes one file there:
      the inputs' pages one document after another, with their total as "total_pages". */
  lemma MergeWritesConcatenation(paths: seq<string>, out: string, open: string -> ReadOutcome,
                                 urlFor: string -> string)
    requires forall k :: 0 <= k < |paths| ==> open(paths[k]).Ok?
    ensures var run := Merge(paths, Some(out), open, urlFor);
            run.result.success && run.result.outputPath == Some(out) &&
            run.written == [Written(out, Flatten(Documents(paths, open)))]
    ensures var run := Merge(paths, Some(out), open, urlFor);
            run.result.metadata ==
              Some(map["files" := StrList(paths), "total_pages" := JInt(SumLengths(Documents(paths, open)))])
  {
    MergedPagesConcatenate(paths, open);
  }

  /** A merge fails exactly with the error of the first input that cannot be opened. */
  lemma {:induction false} MergeFailsAtFirstUnreadable(paths: seq<string>, open: string -> ReadOutcome)
    requires MergedPages(paths, open).Err?
    ensures exists k :: 0 <= k < |paths| && open(paths[k]) == Err(MergedPages(paths, open).error) &&
                        forall j :: 0 <= j < k ==> open(paths[j]).Ok?
    decreases |paths|
  {
    var init := paths[..|paths| - 1];
    var n := |paths| - 1;
    if MergedPages(init, open).Err? {
      MergeFailsAtFirstUnreadable(init, open);
      var k :| 0 <= k < |init| && open(init[k]) == Err(MergedPages(init, open).error) &&
               forall j :: 0 <= j < k ==> open(init[j]).Ok?;
      assert open(paths[k]) == Err(MergedPages(paths, open).error);
      assert forall j :: 0 <= j < k ==> open(paths[j]).Ok? by {
        forall j | 0 <= j < k ensures open(paths[j]).Ok? { assert paths[j] == init[j]; }
      }
    } else {
      MergedPagesAllOpen(init, open);
      assert open(paths[n]) == Err(MergedPages(paths, open).error);
      assert forall j :: 0 <= j < n ==> open(paths[j]).Ok? by {
        forall j | 0 <= j < n ensures open(paths[j]).Ok? { assert paths[j] == init[j]; }
      }
    }
  }

  /** A merge that succeeds read every input. */
  lemma {:induction false} MergedPagesAllOpen(paths: seq<string>, open: string -> ReadOutcome)
    requires MergedPages(paths, open).Ok?
    ensures forall k :: 0 <= k < |paths| ==> open(paths[k]).Ok?
    decreases |paths|
  {
    if paths != [] {
      var init := paths[..|paths| - 1];
      MergedPagesAllOpen(init, open);
      forall k | 0 <= k < |paths| ensures open(paths[k]).Ok? {
        if k < |init| { assert paths[k] == init[k]; }
      }
    }
  }

  // ---------------------------------------------------------------- PDFRearranger

  /** `[p - 1 for p in page_order]`. */
  function ZeroBased(order: seq<int>): (r: seq<int>)
    ensures |r| == |order| && forall k :: 0 <= k < |order| ==> r[k] == order[k] - 1
  {
    seq(|order|, k requires 0 <= k < |order| => order[k] - 1)
  }

  /** The order checks, in the order the rearranger makes them; None when the order is
      accepted. The sorted comparison with `range(total)` is stated as equality of multisets. */
  function OrderError(order: seq<int>, total: nat): (e: Option<string>)
    ensures e.None? ==> order != [] && |order| == total
  {
    var zb := ZeroBased(order);
    if order == [] then Some("page_order is required")
    else if exists k :: 0 <= k < |zb| && (zb[k] < 0 || zb[k] >= total) then
      Some("page_order contains out-of-bounds indices")
    else if multiset(zb) != multiset(Interval(0, total)) then
      Some("page_order must be a permutation of all pages")
    else
      assert |zb| == |multiset(zb)| == |multiset(Interval(0, total))| == |Interval(0, total)|;
      None
  }

  /** `PDFRearranger.process(page_order)`: output page k is input page `page_order[k]`. */
  function Rearrange(outputPath: Option<string>, read: ReadOutcome, order: seq<int>,
                     urlFor: string -> string): (run: ToolRun)
    ensures run.result.success <==> read.Ok? && OrderError(order, |read.value|).None?
    ensures run.written != [] <==> run.result.success && outputPath.Some?
    ensures run.written != [] ==> |run.written| == 1 && |run.written[0].pages| == |read.value|
  {
    match read
    case Err(e) => ToolRun(ProcessingResult(false, "Failed to rearrange PDF: " + e), [])
    case Ok(doc) =>
      match OrderError(order, |doc|)
      case Some(m) => ToolRun(ProcessingResult(false, m), [])
      case None =>
        OrderInBounds(order, |doc|);
        var pages := Select(doc, ZeroBased(order));
        if outputPath.None? then
          ToolRun(ProcessingResult(true, "Reordered in memory", metadata := Some(map["page_order" := IntList(order)])), [])
        else
          var out := outputPath.value;
          ToolRun(ProcessingResult(true, "PDF pages rearranged successfully", Some(out), Some(OutputUrl(urlFor, out)),
                                   Some(map["page_order" := IntList(order), "total_pages" := JInt(|doc|)])),
                  [Written(out, pages)])
  }

  lemma OrderInBounds(order: seq<int>, total: nat)
    requires OrderError(order, total).None?
    ensures InBounds(ZeroBased(order), total)
  {
  }

  /** `PDFRearranger.process`, with the writer loop. */
  method RearrangePdf(tool: ToolBase, read: ReadOutcome, order: seq<int>, urlFor: string -> string)
    returns (run: ToolRun)
    ensures run == Rearrange(tool.outputPath, read, order, urlFor)
  {
    if read.Err? {
      return ToolRun(ProcessingResult(false, "Failed to rearrange PDF: " + read.error), []);
    }
    var doc := read.value;
    var check := OrderError(order, |doc|);
    if check.Some? {
      return ToolRun(ProcessingResult(false, check.value), []);
    }
    OrderInBounds(order, |doc|);
    var pages := CopyPages(doc, ZeroBased(order));
    if tool.outputPath.None? {
      return ToolRun(ProcessingResult(true, "Reordered in memory", metadata := Some(map["page_order" := IntList(order)])), []);
    }
    var out := tool.outputPath.value;
    return ToolRun(ProcessingResult(true, "PDF pages rearranged successfully", Some(out), Some(OutputUrl(urlFor, out)),
                                    Some(map["page_order" := IntList(order), "total_pages" := JInt(|doc|)])),
                   [Written(out, pages)]);
  }

  /** An order is accepted exactly when it lists every page number 1..total once. */
  lemma OrderAccepted(order: seq<int>, total: nat)
    ensures OrderError(order, total).None? <==>
            order != [] && |order| == total && Distinct(order) &&
            forall k :: 0 <= k < |order| ==> 1 <= order[k] <= total
  {
    var zb := ZeroBased(order);
    PermutationOfInterval(zb, total);
    assert Distinct(zb) <==> Distinct(order) by {
      assert forall i, j :: 0 <= i < |order| && 0 <= j < |order| ==> (zb[i] == zb[j] <==> order[i] == order[j]);
    }
  }

  /** Accepted orders only exist for documents with pages. */
  lemma EmptyDocumentRejectsEveryOrder(order: seq<int>)
    ensures OrderError(order, 0).Some?
  {
    OrderAccepted(order, 0);
  }

  /** The rearranged document has the input's pages, each exactly once, output page k being
      input page `order[k]`. */
  lemma RearrangedPages(out: string, doc: seq<Page>, order: seq<int>, urlFor: string -> string)
    requires OrderError(order, |doc|).None?
    ensures var run := Rearrange(Some(out), Ok(doc), order, urlFor);
            run.result.success && |run.written| == 1 && run.written[0].path == out &&
            |run.written[0].pages| == |doc| &&
            (forall k :: 0 <= k < |doc| ==> run.written[0].pages[k] == doc[order[k] - 1]) &&
            multiset(run.written[0].pages) == multiset(doc)
  {
    var zb := ZeroBased(order);
    OrderInBounds(order, |doc|);
    SelectAll(doc);
    SelectPermutation(doc, zb, Interval(0, |doc|));
  }

  /** A rejected order is reported with its message and writes nothing; the checks run
      after the document is read, so an unreadable document is reported first. */
  lemma RearrangeRejects(outputPath: Option<string>, doc: seq<Page>, order: seq<int>, urlFor: string -> string)
    requires OrderError(order, |doc|).Some?
    ensures Rearrange(outputPath, Ok(doc), order, urlFor)
            == ToolRun(ProcessingResult(false, OrderError(order, |doc|).value), [])
  {
  }

  // ---------------------------------------------------------------- ConvertToPDF

  const SupportedImageSuffixes: set<string> := {".png", ".jpg", ".jpeg", ".bmp", ".tiff", ".webp"}

  /** The file operation a conversion performs. */
  datatype ConvertAction = NoAction | CopyPdf(source: string, target: string) | RenderImage(source: string, target: string)

  datatype ConvertRun = ConvertRun(result: ProcessingResult, action: ConvertAction)

  /** `ConvertToPDF.process()`, dispatching on the lower-cased suffix. `failure` is the message
      of the exception raised by the copy or the image rendering, if one is raised. */
  function ConvertToPdf(inputPath: string, outputPath: Option<string>, failure: Option<string>,
                        urlFor: string -> string): (run: ConvertRun)
    ensures !run.action.NoAction? ==> run.result.success && outputPath.Some? && failure.None?
    ensures run.action.CopyPdf? ==> Lower(Suffix(inputPath)) == ".pdf"
    ensures run.action.RenderImage? ==> Lower(Suffix(inputPath)) in SupportedImageSuffixes
  {
    var ext := Lower(Suffix(inputPath));
    if ext == ".pdf" then
      if outputPath.None? then
        ConvertRun(ProcessingResult(true, "Already a PDF; no output path provided", metadata := Some(map[])), NoAction)
      else if failure.Some? then
        ConvertRun(ProcessingResult(false, "Failed to convert to PDF: " + failure.value), NoAction)
      else
        var out := outputPath.value;
        ConvertRun(ProcessingResult(true, "File was already PDF; copied", Some(out), Some(OutputUrl(urlFor, out))),
                   CopyPdf(inputPath, out))
    else if ext !in SupportedImageSuffixes then
      ConvertRun(ProcessingResult(false, "Unsupported input format for PDF conversion: " + ext), NoAction)
    else if outputPath.None? then
      ConvertRun(ProcessingResult(false, "Output path is required for conversion"), NoAction)
    else if failure.Some? then
      ConvertRun(ProcessingResult(false, "Failed to convert to PDF: " + failure.value), NoAction)
    else
      var out := outputPath.value;
      ConvertRun(ProcessingResult(true, "Converted to PDF successfully", Some(out), Some(OutputUrl(urlFor, out)),
                                  Some(map["source_format" := JStr(StripStart(ext, IsDot))])),
                 RenderImage(inputPath, out))
  }

  /** Conversion succeeds exactly for a PDF (copied when there is an output, left alone when
      there is none) and for a supported image with an output path, when the file step
      raises nothing. */
  lemma ConvertSucceeds(inputPath: string, outputPath: Option<string>, failure: Option<string>, urlFor: string -> string)
    ensures var ext := Lower(Suffix(inputPath));
            ConvertToPdf(inputPath, outputPath, failure, urlFor).result.success <==>
            (ext == ".pdf" && (outputPath.None? || failure.None?)) ||
            (ext in SupportedImageSuffixes && outputPath.Some? && failure.None?)
  {
  }

  /** A `.pdf` input, in any letter case, is copied through unchanged to the output path. */
  lemma ConvertCopiesPdf(inputPath: string, out: string, urlFor: string -> string)
    requires Lower(Suffix(inputPath)) == ".pdf"
    ensures ConvertToPdf(inputPath, Some(out), None, urlFor).action == CopyPdf(inputPath, out)
  {
  }

  /** Any other suffix outside the supported image suffixes is rejected, whatever the output
      path, and nothing is done. */
  lemma ConvertRejectsUnsupported(inputPath: string, outputPath: Option<string>, failure: Option<string>, urlFor: string -> string)
    requires Lower(Suffix(inputPath)) != ".pdf" && Lower(Suffix(inputPath)) !in SupportedImageSuffixes
    ensures var run := ConvertToPdf(inputPath, outputPath, failure, urlFor);
            run.action == NoAction &&
            run.result == ProcessingResult(false, "Unsupported input format for PDF conversion: " + Lower(Suffix(inputPath)))
  {
  }

  /** A supported image with no output path is rejected. */
  lemma ConvertImageNeedsOutput(inputPath: string, failure: Option<string>, urlFor: string -> string)
    requires Lower(Suffix(inputPath)) in SupportedImageSuffixes
    ensures ConvertToPdf(inputPath, None, failure, urlFor).result
            == ProcessingResult(false, "Output path is required for conversion")
  {
    SupportedSuffixAllowed(Lower(Suffix(inputPath)));
  }

  /** A rendered image records its format as the file's extension, which is one the image
      upload allow-set accepts. */
  lemma ConvertRecordsSourceFormat(inputPath: string, out: string, urlFor: string -> string)
    requires Lower(Suffix(inputPath)) in SupportedImageSuffixes
    ensures var run := ConvertToPdf(inputPath, Some(out), None, urlFor);
            run.action == RenderImage(inputPath, out) &&
            run.result.metadata == Some(map["source_format" := JStr(Extension(inputPath))]) &&
            Extension(inputPath) in AllowedImageExtensions
  {
    var ext := Lower(Suffix(inputPath));
    assert ext != ".pdf" && ext != [] && ext[1..] in AllowedImageExtensions by { SupportedSuffixAllowed(ext); }
    assert StripStart(ext, IsDot) == Extension(inputPath) == ext[1..] by { RenderedFormat(inputPath); }
  }

  /** A supported suffix is not ".pdf", starts with its dot, and without it is an allowed image extension. */
  lemma SupportedSuffixAllowed(ext: string)
    requires ext in SupportedImageSuffixes
    ensures ext != ".pdf" && |ext| >= 2 && ext[0] == '.' && ext[1..] in AllowedImageExtensions
  {
  }

  lemma RenderedFormat(inputPath: string)
    requires Lower(Suffix(inputPath)) != []
    ensures StripStart(Lower(Suffix(inputPath)), IsDot) == Extension(inputPath)
    ensures Extension(inputPath) == Lower(Suffix(inputPath))[1..]
  {
    var sfx := Suffix(inputPath);
    LowerSlices(sfx, 1);
  }

  // ---------------------------------------------------------------- PDFTextExtractor

  /** `page.extract_text() or ""`. */
  function PageText(p: Page): (t: string)
    ensures p.text.Some? ==> t == p.text.value
    ensures t == "" <==> p.text.None? || p.text.value == ""
  {
    p.text.GetOr("")
  }

  /** `f"--- Page {n} ---\n{text}"`. */
  function Section(n: int, text: string): (s: string)
    ensures |text| < |s| && s[|s| - |text|..] == text
  {
    "--- Page " + IntToString(n) + " ---\n" + text
  }

  /** A section names its page and its text unambiguously: the number and the text can be read
      back from it. */
  lemma SectionReadsBack(n: int, m: int, t: string, u: string)
    requires Section(n, t) == Section(m, u)
    ensures n == m && t == u
  {
    var a, b := IntToString(n), IntToString(m);
    var s := Section(n, t);
    assert s == "--- Page " + a + " ---\n" + t;
    assert s == "--- Page " + b + " ---\n" + u;
    NumberHasNoSpace(n);
    NumberHasNoSpace(m);
    HeaderLength(a, b, t, u);
    HeaderLength(b, a, u, t);
    assert a == s[9..9 + |a|] == b;
    IntToStringInjective(n, m);
    assert t == s[9 + |a| + 5..] == u;
  }

  /** The header's number ends at its first space, so two equal sections have numbers of one length. */
  lemma HeaderLength(a: string, b: string, t: string, u: string)
    requires forall i :: 0 <= i < |b| ==> b[i] != ' '
    requires "--- Page " + a + " ---\n" + t == "--- Page " + b + " ---\n" + u
    ensures |b| <= |a|
  {
    if |a| < |b| {
      SpaceAfterShorterNumber(a, b, t, u);
    }
  }

  lemma SpaceAfterShorterNumber(a: string, b: string, t: string, u: string)
    requires |a| < |b|
    requires "--- Page " + a + " ---\n" + t == "--- Page " + b + " ---\n" + u
    ensures b[|a|] == ' '
  {
    var s := "--- Page " + a + " ---\n" + t;
    assert s[9 + |a|] == ' ';
    assert s[9 + |a|] == b[|a|];
  }

  lemma NumberHasNoSpace(n: int)
    ensures forall i :: 0 <= i < |IntToString(n)| ==> IntToString(n)[i] != ' '
  {
    var a := IntToString(n);
    forall i | 0 <= i < |a| ensures a[i] != ' ' {
      if i > 0 || n >= 0 {
        assert IsDigit(a[i]) by {
          if n < 0 { assert a[i] == a[1..][i - 1]; }
        }
      }
    }
  }

  /** The extracted `(number, text)` pairs for the selected positions, in order. */
  function Extracted(doc: seq<Page>, ix: seq<int>): (r: seq<(int, string)>)
    requires InBounds(ix, |doc|)
    ensures |r| == |ix| && forall k :: 0 <= k < |ix| ==> r[k] == (ix[k] + 1, PageText(doc[ix[k]]))
  {
    seq(|ix|, k requires 0 <= k < |ix| => (ix[k] + 1, PageText(doc[ix[k]])))
  }

  /** The sections of the combined text, one per extracted pair. */
  function Sections(texts: seq<(int, string)>): (r: seq<string>)
    ensures |r| == |texts| && forall k :: 0 <= k < |texts| ==> r[k] == Section(texts[k].0, texts[k].1)
  {
    seq(|texts|, k requires 0 <= k < |texts| => Section(texts[k].0, texts[k].1))
  }

  function Numbers(texts: seq<(int, string)>): (r: seq<int>)
    ensures |r| == |texts| && forall k :: 0 <= k < |texts| ==> r[k] == texts[k].0
  {
    seq(|texts|, k requires 0 <= k < |texts| => texts[k].0)
  }

  function ExtractionResult(texts: seq<(int, string)>, total: nat): (r: ProcessingResult)
    ensures r.success && r.outputPath.None? && r.metadata.Some?
    ensures "pages_extracted" in r.metadata.value && r.metadata.value["pages_extracted"].JList?
    ensures |r.metadata.value["pages_extracted"].items| == |texts|
  {
    ProcessingResult(true, "Text extracted successfully",
                     metadata := Some(map["pages_extracted" := IntList(Numbers(texts)),
                                          "total_pages" := JInt(total),
                                          "text" := JStr(Join("\n\n", Sections(texts)))]))
  }

  /** `PDFTextExtractor.process(pages)`: the selected pages (every page without a range text),
      in the parser's order. */
  function ExtractText(read: ReadOutcome, pages: Option<string>): (r: ProcessingResult)
    ensures r.success <==> read.Ok? && PageRanges.PageRanges(pages, |read.value|).Ok?
    ensures r.outputPath.None?
  {
    match read
    case Err(e) => ProcessingResult(false, "Failed to extract text: " + e)
    case Ok(doc) =>
      match PageRanges.PageRanges(pages, |doc|)
      case Err(re) => ProcessingResult(false, "Failed to extract text: " + re.Message())
      case Ok(ix) => ExtractionResult(Extracted(doc, ix), |doc|)
  }

  /** The extraction loop of `PDFTextExtractor.process`. */
  method ExtractPages(doc: seq<Page>, ix: seq<int>) returns (texts: seq<(int, string)>)
    requires InBounds(ix, |doc|)
    ensures texts == Extracted(doc, ix)
  {
    texts := [];
    for j := 0 to |ix|
      invariant |texts| == j
      invariant forall k :: 0 <= k < j ==> texts[k] == (ix[k] + 1, PageText(doc[ix[k]]))
    {
      texts := texts + [(ix[j] + 1, PageText(doc[ix[j]]))];
    }
  }

  /** `PDFTextExtractor.process`. */
  method ExtractTextPdf(read: ReadOutcome, pages: Option<string>) returns (result: ProcessingResult)
    ensures result == ExtractText(read, pages)
  {
    if read.Err? {
      return ProcessingResult(false, "Failed to extract text: " + read.error);
    }
    var doc := read.value;
    var ix := ParsePageRanges(pages, |doc|);
    if ix.Err? {
      return ProcessingResult(false, "Failed to extract text: " + ix.error.Message());
    }
    var texts := ExtractPages(doc, ix.value);
    result := ExtractionResult(texts, |doc|);
  }

  /** Without a range text every page is extracted, numbered 1..total. */
  lemma ExtractEveryPage(doc: seq<Page>, pages: Option<string>)
    requires pages.None? || pages.value == []
    ensures var r := ExtractText(Ok(doc), pages);
            r.success &&
            r.metadata.value["pages_extracted"] == IntList(Interval(1, |doc| + 1)) &&
            r.metadata.value["text"] == JStr(Join("\n\n", Sections(Extracted(doc, Interval(0, |doc|)))))
  {
    var texts := Extracted(doc, Interval(0, |doc|));
    assert Numbers(texts) == Interval(1, |doc| + 1);
  }

  /** The extracted page numbers are 1-based, within the document and without repeats. */
  lemma ExtractedNumbersValid(doc: seq<Page>, pages: Option<string>)
    requires ExtractText(Ok(doc), pages).success
    ensures var ix := PageRanges.PageRanges(pages, |doc|).value;
            var ns := Numbers(Extracted(doc, ix));
            ns == OneBased(ix) && Distinct(ns) && forall k :: 0 <= k < |ns| ==> 1 <= ns[k] <= |doc|
  {
    assert PageRanges.PageRanges(pages, |doc|).Ok?;
    NumbersOfExtracted(doc, PageRanges.PageRanges(pages, |doc|).value);
  }

  lemma NumbersOfExtracted(doc: seq<Page>, ix: seq<int>)
    requires InBounds(ix, |doc|) && Distinct(ix)
    ensures var ns := Numbers(Extracted(doc, ix));
            ns == OneBased(ix) && Distinct(ns) && forall k :: 0 <= k < |ns| ==> 1 <= ns[k] <= |doc|
  {
    var ns := Numbers(Extracted(doc, ix));
    assert ns == OneBased(ix);
  }

  /** Section k of the combined text names page `pages_extracted[k]` and holds its text; a page
      without text contributes only its header. */
  lemma SectionsMatchNumbers(doc: seq<Page>, ix: seq<int>, k: nat)
    requires InBounds(ix, |doc|) && k < |ix|
    ensures var texts := Extracted(doc, ix);
            Sections(texts)[k] == Section(Numbers(texts)[k], PageText(doc[ix[k]]))
    ensures doc[ix[k]].text.None? ==> Sections(Extracted(doc, ix))[k] == "--- Page " + IntToString(ix[k] + 1) + " ---\n"
  {
    if doc[ix[k]].text.None? {
      var h := "--- Page " + IntToString(ix[k] + 1) + " ---\n";
      assert h + "" == h;
    }
  }
}
