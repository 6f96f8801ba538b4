/** The PDF routes' parameter guards: the upload check, the merge order and the rearrange page
    order read from JSON form fields, and the paths each route hands its tool.  As for the
    image routes, a handler is modelled as its decision: the early response or the call. */
module PdfRoutes {
  import opened Wrappers
  import opened Strings
  import opened Sequences
  import opened Paths
  import opened Base
  import opened Http
  import PdfTools

  /** `_validate_pdf_file`, preceded by the `'file' not in request.files` test. */
  function PdfFileGuard(file: Option<string>): (problem: Option<Response>)
    ensures problem.None? <==> file.Some? && file.value != "" && IsAllowedExtension(file.value, AllowedPdfExtensions)
    ensures problem.Some? ==> problem.value.status == 400
  {
    FileGuard(file, AllowedPdfExtensions)
  }

  /** `_validate_pdf_file` itself, as the merge loop calls it on each selected upload. */
  function ValidatePdf(filename: string): (problem: Option<Body>)
    ensures problem.None? <==> filename != "" && IsAllowedExtension(filename, AllowedPdfExtensions)
  {
    ValidateUpload(filename, AllowedPdfExtensions)
  }

  // ---------------------------------------------------------------- JSON integer arrays

  /** `isinstance(v, int)` on a decoded JSON value: integers, and `true`/`false`, which Python
      counts as the integers 1 and 0. */
  function JsonInt(j: Json): (r: Option<int>)
    ensures r.Some? <==> j.JInt? || j.JBool?
    ensures j.JInt? ==> r == Some(j.i)
    ensures j.JBool? ==> r == Some(if j.b then 1 else 0)
  {
    match j
    case JInt(i) => Some(i)
    case JBool(b) => Some(if b then 1 else 0)
    case _ => None
  }

  /** A decoded value that passes `isinstance(v, list) and all(isinstance(i, int) for i in v)`,
      as its integers. */
  function IntArray(j: Json): (r: Option<seq<int>>)
    ensures r.Some? <==> j.JList? && forall k :: 0 <= k < |j.items| ==> JsonInt(j.items[k]).Some?
    ensures r.Some? ==> |r.value| == |j.items| && forall k :: 0 <= k < |j.items| ==> r.value[k] == JsonInt(j.items[k]).value
  {
    if j.JList? && forall k :: 0 <= k < |j.items| ==> JsonInt(j.items[k]).Some? then
      Some(seq(|j.items|, k requires 0 <= k < |j.items| => JsonInt(j.items[k]).value))
    else None
  }

  /** A list of page numbers as the tools report it (`pages`, `pages_extracted`) reads back
      through this check as the same integers. */
  lemma IntArrayOfIntList(xs: seq<int>)
    ensures IntArray(IntList(xs)) == Some(xs)
  {
    var j := IntList(xs);
    assert forall k :: 0 <= k < |j.items| ==> JsonInt(j.items[k]) == Some(xs[k]);
    assert IntArray(j).value == xs;
  }

  // ---------------------------------------------------------------- split

  datatype SplitCall = SplitCall(inputPath: string, outputPath: string, pages: Option<string>)

  /** `split_pdf`: the ranges text is passed on unchecked; the output is a ".pdf" path. */
  function SplitRoute(file: Option<string>, pages: Option<string>, secure: string -> string, uuid: nat -> Uuid)
    : (r: Result<SplitCall, Response>)
    ensures r.Ok? <==> PdfFileGuard(file).None?
    ensures r.Ok? ==> r.value.pages == pages && Suffix(r.value.outputPath) == ".pdf"
    ensures r.Err? ==> r.error.status == 400
    ensures PdfFileGuard(file).Some? ==> r == Err(PdfFileGuard(file).value)
  {
    if PdfFileGuard(file).Some? then Err(PdfFileGuard(file).value)
    else
      var input := SavedUploadPath("pdf_split_input", uuid(0), secure, file.value);
      PdfOutputPathSuffix(input, "split", uuid(1));
      Ok(SplitCall(input, GenerateOutputPath(input, "split", ".pdf", uuid(1)), pages))
  }

  // ---------------------------------------------------------------- merge

  /** The `order` field of `merge_pdfs`: absent or empty means the files in upload order;
      otherwise it must decode (`decode` stands for `json.loads`, None where it raises) to an
      array of integers. */
  function MergeOrder(orderField: Option<string>, decode: string -> Option<Json>, count: nat)
    : (r: Result<seq<int>, Response>)
    ensures orderField.None? || orderField.value == "" ==> r == Ok(Interval(0, count))
    ensures orderField.Some? && orderField.value != "" ==>
              (r.Ok? <==> decode(orderField.value).Some? && IntArray(decode(orderField.value).value).Some?)
    ensures orderField.Some? && orderField.value != "" && r.Ok? ==> r.value == IntArray(decode(orderField.value).value).value
    ensures r.Err? ==> r.error.status == 400
  {
    if orderField.Some? && orderField.value != "" then
      match decode(orderField.value)
      case None => Err(BadRequest("Invalid order JSON"))
      case Some(j) =>
        match IntArray(j)
        case None => Err(BadRequest("order must be an array of integers"))
        case Some(order) => Ok(order)
    else Ok(Interval(0, count))
  }

  /** What is wrong with one entry of the order: an index outside the uploads, or an upload
      that fails the PDF check. */
  function EntryProblem(files: seq<string>, validate: string -> Option<Body>, idx: int): (p: Option<Response>)
    ensures p.None? <==> 0 <= idx < |files| && validate(files[idx]).None?
    ensures p.Some? ==> p.value.status == 400
  {
    if idx < 0 || idx >= |files| then Some(BadRequest("order index out of range: " + IntToString(idx)))
    else
      match validate(files[idx])
      case Some(body) => Some(Response(400, body))
      case None => None
  }

  /** The answer to the first entry of the order that `check` finds a problem with, if any. */
  function FirstProblem(order: seq<int>, check: int -> Option<Response>): (p: Option<Response>)
    ensures p.None? <==> forall k :: 0 <= k < |order| ==> check(order[k]).None?
    ensures p.Some? ==> exists k :: 0 <= k < |order| && p == check(order[k])
    decreases |order|
  {
    if order == [] then None
    else
      var k := |order| - 1;
      assert forall j :: 0 <= j < k ==> order[..k][j] == order[j];
      var earlier := FirstProblem(order[..k], check);
      if earlier.Some? then earlier else check(order[k])
  }

  /** The first entry with a problem, in order, is the one that answers. */
  lemma {:induction false} FirstProblemIsFirst(order: seq<int>, check: int -> Option<Response>, i: nat)
    requires i < |order| && check(order[i]).Some?
    requires forall k :: 0 <= k < i ==> check(order[k]).None?
    ensures FirstProblem(order, check) == check(order[i])
    decreases |order|
  {
    var k := |order| - 1;
    assert forall j :: 0 <= j < k ==> order[..k][j] == order[j];
    if i < k {
      FirstProblemIsFirst(order[..k], check, i);
    }
  }

  /** The input list `merge_pdfs` builds: the first problem in the order answers the request;
      otherwise each selected upload is saved, the k-th with the k-th uuid.  Repeats and
      omissions are allowed and unselected uploads are not checked. */
  function ResolveInputs(files: seq<string>, validate: string -> Option<Body>, order: seq<int>, secure: string -> string, uuid: nat -> Uuid)
    : (r: Result<seq<string>, Response>)
    ensures r.Ok? <==> forall k :: 0 <= k < |order| ==> EntryProblem(files, validate, order[k]).None?
    ensures r.Ok? ==> |r.value| == |order| &&
                      forall k :: 0 <= k < |order| ==>
                        0 <= order[k] < |files| &&
                        r.value[k] == SavedUploadPath("pdf_merge_input", uuid(k), secure, files[order[k]])
    ensures r.Err? ==> r.error.status == 400
  {
    match FirstProblem(order, idx => EntryProblem(files, validate, idx))
    case Some(problem) => Err(problem)
    case None =>
      Ok(seq(|order|, k requires 0 <= k < |order| => SavedUploadPath("pdf_merge_input", uuid(k), secure, files[order[k]])))
  }

  lemma AcceptedPrefix(files: seq<string>, validate: string -> Option<Body>, order: seq<int>, k: nat)
    requires k < |order| && 0 <= order[k] < |files| && validate(files[order[k]]).None?
    requires forall j :: 0 <= j < k ==> EntryProblem(files, validate, order[j]).None?
    ensures forall j :: 0 <= j < k + 1 ==> EntryProblem(files, validate, order[j]).None?
  {
  }

  lemma SavedPrefix(files: seq<string>, order: seq<int>, k: nat, paths: seq<string>, saved: string,
                    secure: string -> string, uuid: nat -> Uuid)
    requires k < |order| && |paths| == k && forall j :: 0 <= j <= k ==> 0 <= order[j] < |files|
    requires forall j :: 0 <= j < k ==> paths[j] == SavedUploadPath("pdf_merge_input", uuid(j), secure, files[order[j]])
    requires saved == SavedUploadPath("pdf_merge_input", uuid(k), secure, files[order[k]])
    ensures forall j :: 0 <= j < k + 1 ==>
              (paths + [saved])[j] == SavedUploadPath("pdf_merge_input", uuid(j), secure, files[order[j]])
  {
    forall j | 0 <= j < k + 1
      ensures (paths + [saved])[j] == SavedUploadPath("pdf_merge_input", uuid(j), secure, files[order[j]])
    {
      if j < k {
        assert (paths + [saved])[j] == paths[j];
      } else {
        assert (paths + [saved])[j] == saved;
      }
    }
  }

  /** `merge_pdfs`' loop over the order, returning at the first problem. */
  method ResolveMergeInputs(files: seq<string>, validate: string -> Option<Body>, order: seq<int>, secure: string -> string, uuid: nat -> Uuid)
    returns (r: Result<seq<string>, Response>)
    ensures r == ResolveInputs(files, validate, order, secure, uuid)
  {
    var inputPaths: seq<string> := [];
    for k := 0 to |order|
      invariant forall j :: 0 <= j < k ==> EntryProblem(files, validate, order[j]).None?
      invariant |inputPaths| == k
      invariant forall j :: 0 <= j < k ==>
                  inputPaths[j] == SavedUploadPath("pdf_merge_input", uuid(j), secure, files[order[j]])
    {
      var idx := order[k];
      if idx < 0 || idx >= |files| {
        ResolveRejects(files, validate, order, secure, uuid, k);
        return Err(BadRequest("order index out of range: " + IntToString(idx)));
      }
      var err := validate(files[idx]);
      if err.Some? {
        ResolveRejects(files, validate, order, secure, uuid, k);
        return Err(Response(400, err.value));
      }
      AcceptedPrefix(files, validate, order, k);
      var saved := SavedUploadPath("pdf_merge_input", uuid(k), secure, files[idx]);
      SavedPrefix(files, order, k, inputPaths, saved, secure, uuid);
      inputPaths := inputPaths + [saved];
    }
    ResolveAccepts(files, validate, order, secure, uuid, inputPaths);
    return Ok(inputPaths);
  }

  /** The first entry with a problem decides the answer. */
  lemma ResolveRejects(files: seq<string>, validate: string -> Option<Body>, order: seq<int>,
                       secure: string -> string, uuid: nat -> Uuid, k: nat)
    requires k < |order| && EntryProblem(files, validate, order[k]).Some?
    requires forall j :: 0 <= j < k ==> EntryProblem(files, validate, order[j]).None?
    ensures ResolveInputs(files, validate, order, secure, uuid) == Err(EntryProblem(files, validate, order[k]).value)
  {
    FirstProblemIsFirst(order, idx => EntryProblem(files, validate, idx), k);
  }

  /** Without a problem, the saved copies in order are the resolved inputs. */
  lemma ResolveAccepts(files: seq<string>, validate: string -> Option<Body>, order: seq<int>,
                       secure: string -> string, uuid: nat -> Uuid, paths: seq<string>)
    requires forall j :: 0 <= j < |order| ==> EntryProblem(files, validate, order[j]).None?
    requires forall j :: 0 <= j < |order| ==> 0 <= order[j] < |files|
    requires |paths| == |order|
    requires forall j :: 0 <= j < |order| ==>
               paths[j] == SavedUploadPath("pdf_merge_input", uuid(j), secure, files[order[j]])
    ensures ResolveInputs(files, validate, order, secure, uuid) == Ok(paths)
  {
    var r := ResolveInputs(files, validate, order, secure, uuid);
    assert r.Ok?;
    assert |r.value| == |paths| && forall j :: 0 <= j < |paths| ==> r.value[j] == paths[j];
    assert r.value == paths;
    assert r == Ok(r.value);
  }

  datatype MergeCall = MergeCall(inputPaths: seq<string>, outputPath: string)

  /** `merge_pdfs`: at least two uploads, an order, its resolution, then the output path
      derived from the first input; an empty order gets through the checks and fails on
      `input_paths[0]`. */
  function MergeRoute(files: Option<seq<string>>, orderField: Option<string>, decode: string -> Option<Json>,
                      secure: string -> string, uuid: nat -> Uuid): (r: Result<MergeCall, Response>)
    ensures r.Ok? ==> files.Some? && |files.value| >= 2 && r.value.inputPaths != []
    ensures r.Ok? ==> MergeOrder(orderField, decode, |files.value|).Ok? &&
                      ResolveInputs(files.value, ValidatePdf, MergeOrder(orderField, decode, |files.value|).value, secure, uuid)
                        == Ok(r.value.inputPaths)
    ensures r.Ok? ==> OutputFolder + "/" <= r.value.outputPath
    ensures r.Err? ==> r.error.status == 400 || r.error == InternalError("list index out of range")
    ensures files.None? ==> r == Err(BadRequest("No files provided"))
    ensures files.Some? && |files.value| < 2 ==> r == Err(BadRequest("At least two PDF files are required"))
    ensures files.Some? && |files.value| >= 2 && MergeOrder(orderField, decode, |files.value|).Err? ==>
              r == Err(MergeOrder(orderField, decode, |files.value|).error)
    ensures files.Some? && |files.value| >= 2 && MergeOrder(orderField, decode, |files.value|).Ok? &&
            ResolveInputs(files.value, ValidatePdf, MergeOrder(orderField, decode, |files.value|).value, secure, uuid).Err? ==>
              r == Err(ResolveInputs(files.value, ValidatePdf, MergeOrder(orderField, decode, |files.value|).value, secure, uuid).error)
    ensures r == Err(InternalError("list index out of range")) <==>
              files.Some? && |files.value| >= 2 && MergeOrder(orderField, decode, |files.value|) == Ok([])
  {
    if files.None? then Err(BadRequest("No files provided"))
    else if |files.value| < 2 then Err(BadRequest("At least two PDF files are required"))
    else
      var order :- MergeOrder(orderField, decode, |files.value|);
      var inputs :- ResolveInputs(files.value, ValidatePdf, order, secure, uuid);
      if inputs == [] then Err(InternalError("list index out of range"))
      else Ok(MergeCall(inputs, GenerateOutputPath(inputs[0], "merged", ".pdf", uuid(|inputs|))))
  }

  /** Fewer than two uploads are refused with 400. */
  lemma MergeNeedsTwoFiles(files: seq<string>, orderField: Option<string>, decode: string -> Option<Json>,
                           secure: string -> string, uuid: nat -> Uuid)
    requires |files| < 2
    ensures MergeRoute(Some(files), orderField, decode, secure, uuid) == Err(BadRequest("At least two PDF files are required"))
  {
  }

  /** Without an order every upload is merged in upload order, each saved copy in place. */
  lemma MergeDefaultOrder(files: seq<string>, decode: string -> Option<Json>, secure: string -> string, uuid: nat -> Uuid)
    requires |files| >= 2
    requires forall k :: 0 <= k < |files| ==> ValidateUpload(files[k], AllowedPdfExtensions).None?
    ensures var r := MergeRoute(Some(files), None, decode, secure, uuid);
            r.Ok? && |r.value.inputPaths| == |files| &&
            forall k :: 0 <= k < |files| ==>
              r.value.inputPaths[k] == SavedUploadPath("pdf_merge_input", uuid(k), secure, files[k])
  {
    var order := Interval(0, |files|);
    assert forall k :: 0 <= k < |order| ==> order[k] == k;
    ValidEntries(files, order);
    MergeResolves(files, None, decode, secure, uuid, order);
  }

  /** An order of in-range indices of valid uploads selects those uploads in that order. */
  lemma MergeFollowsOrder(files: seq<string>, text: string, order: seq<int>, decode: string -> Option<Json>,
                          secure: string -> string, uuid: nat -> Uuid)
    requires |files| >= 2 && text != "" && order != []
    requires decode(text).Some? && IntArray(decode(text).value) == Some(order)
    requires forall k :: 0 <= k < |order| ==>
               0 <= order[k] < |files| && ValidateUpload(files[order[k]], AllowedPdfExtensions).None?
    ensures var r := MergeRoute(Some(files), Some(text), decode, secure, uuid);
            r.Ok? && |r.value.inputPaths| == |order| &&
            forall k :: 0 <= k < |order| ==>
              r.value.inputPaths[k] == SavedUploadPath("pdf_merge_input", uuid(k), secure, files[order[k]])
  {
    ValidEntries(files, order);
    MergeResolves(files, Some(text), decode, secure, uuid, order);
  }

  /** Entries that are in range and name valid uploads have no problem. */
  lemma ValidEntries(files: seq<string>, order: seq<int>)
    requires forall k :: 0 <= k < |order| ==>
               0 <= order[k] < |files| && ValidateUpload(files[order[k]], AllowedPdfExtensions).None?
    ensures forall k :: 0 <= k < |order| ==> EntryProblem(files, ValidatePdf, order[k]).None?
  {
    forall k | 0 <= k < |order| ensures EntryProblem(files, ValidatePdf, order[k]).None? {
      assert ValidatePdf(files[order[k]]) == ValidateUpload(files[order[k]], AllowedPdfExtensions);
    }
  }

  /** A non-empty order whose entries all resolve reaches the merger with the resolved inputs. */
  lemma MergeResolves(files: seq<string>, orderField: Option<string>, decode: string -> Option<Json>,
                      secure: string -> string, uuid: nat -> Uuid, order: seq<int>)
    requires |files| >= 2 && order != []
    requires MergeOrder(orderField, decode, |files|) == Ok(order)
    requires forall k :: 0 <= k < |order| ==> EntryProblem(files, ValidatePdf, order[k]).None?
    ensures ResolveInputs(files, ValidatePdf, order, secure, uuid).Ok?
    ensures var r := MergeRoute(Some(files), orderField, decode, secure, uuid);
            r.Ok? && r.value.inputPaths == ResolveInputs(files, ValidatePdf, order, secure, uuid).value
  {
  }

  /** The order "[]" passes every check and then fails with 500 on `input_paths[0]`. */
  lemma MergeEmptyOrder(files: seq<string>, text: string, decode: string -> Option<Json>,
                        secure: string -> string, uuid: nat -> Uuid)
    requires |files| >= 2 && text != "" && decode(text) == Some(JList([]))
    ensures MergeRoute(Some(files), Some(text), decode, secure, uuid) == Err(InternalError("list index out of range"))
    ensures MergeRoute(Some(files), Some(text), decode, secure, uuid).error.status == 500
  {
    assert IntArray(JList([])) == Some([]);
  }

  /** JSON `true` and `false` pass as the indices 1 and 0. */
  lemma BooleansAreIndices()
    ensures IntArray(JList([JBool(true), JBool(false)])) == Some([1, 0])
  {
    var j := JList([JBool(true), JBool(false)]);
    assert JsonInt(j.items[0]) == Some(1) && JsonInt(j.items[1]) == Some(0);
    assert forall k :: 0 <= k < |j.items| ==> JsonInt(j.items[k]).Some?;
    var r := IntArray(j).value;
    assert |r| == 2 && r[0] == 1 && r[1] == 0;
    assert r == [1, 0];
  }

  // ---------------------------------------------------------------- rearrange

  /** The `page_order` field: required, and an array of integers once decoded. */
  function PageOrder(orderField: Option<string>, decode: string -> Option<Json>): (r: Result<seq<int>, Response>)
    ensures r.Ok? <==> orderField.Some? && orderField.value != "" && decode(orderField.value).Some? &&
                       IntArray(decode(orderField.value).value).Some?
    ensures r.Ok? ==> r.value == IntArray(decode(orderField.value).value).value
    ensures r.Err? ==> r.error.status == 400
  {
    if orderField.None? || orderField.value == "" then Err(BadRequest("page_order is required"))
    else
      match decode(orderField.value)
      case None => Err(BadRequest("Invalid page_order JSON"))
      case Some(j) =>
        match IntArray(j)
        case None => Err(BadRequest("page_order must be an array of 1-based integers"))
        case Some(order) => Ok(order)
  }

  datatype RearrangeCall = RearrangeCall(inputPath: string, outputPath: string, pageOrder: seq<int>)

  /** `rearrange_pages`: bounds and permutation checks are left to the rearranger. */
  function RearrangeRoute(file: Option<string>, orderField: Option<string>, decode: string -> Option<Json>,
                          secure: string -> string, uuid: nat -> Uuid): (r: Result<RearrangeCall, Response>)
    ensures r.Ok? <==> PdfFileGuard(file).None? && PageOrder(orderField, decode).Ok?
    ensures r.Ok? ==> r.value.pageOrder == PageOrder(orderField, decode).value && Suffix(r.value.outputPath) == ".pdf"
    ensures r.Err? ==> r.error.status == 400
    ensures PdfFileGuard(file).Some? ==> r == Err(PdfFileGuard(file).value)
    ensures PdfFileGuard(file).None? && PageOrder(orderField, decode).Err? ==> r == Err(PageOrder(orderField, decode).error)
  {
    if PdfFileGuard(file).Some? then Err(PdfFileGuard(file).value)
    else
      var order :- PageOrder(orderField, decode);
      var input := SavedUploadPath("pdf_rearrange_input", uuid(0), secure, file.value);
      PdfOutputPathSuffix(input, "rearranged", uuid(1));
      Ok(RearrangeCall(input, GenerateOutputPath(input, "rearranged", ".pdf", uuid(1)), order))
  }

  /** An empty JSON array gets past the route and is refused by the rearranger, with 500. */
  lemma RearrangeEmptyArray(file: Option<string>, text: string, decode: string -> Option<Json>,
                            secure: string -> string, uuid: nat -> Uuid, doc: seq<PdfTools.Page>,
                            urlFor: string -> string)
    requires PdfFileGuard(file).None? && text != "" && decode(text) == Some(JList([]))
    ensures var r := RearrangeRoute(file, Some(text), decode, secure, uuid);
            r.Ok? && r.value.pageOrder == [] &&
            Handle(r, (c: RearrangeCall) => PdfTools.Rearrange(StoredPath(Some(c.outputPath)), Ok(doc), c.pageOrder, urlFor).result)
              == Respond(ProcessingResult(false, "page_order is required")) &&
            Respond(ProcessingResult(false, "page_order is required")).status == 500
  {
    assert IntArray(JList([])) == Some([]);
  }

  // ---------------------------------------------------------------- convert to PDF, extract text

  datatype ConvertToPdfCall = ConvertToPdfCall(inputPath: string, outputPath: string)

  /** `convert_to_pdf`: any named upload is accepted (the converter checks the format); the
      output is always a ".pdf" path. */
  function ConvertToPdfRoute(file: Option<string>, secure: string -> string, uuid: nat -> Uuid)
    : (r: Result<ConvertToPdfCall, Response>)
    ensures r.Ok? <==> file.Some? && file.value != ""
    ensures r.Ok? ==> Suffix(r.value.outputPath) == ".pdf"
    ensures r.Err? ==> r == Err(BadRequest("No file provided")) && r.error.status == 400
  {
    if file.None? || file.value == "" then Err(BadRequest("No file provided"))
    else
      var input := SavedUploadPath("convert_to_pdf_input", uuid(0), secure, file.value);
      PdfOutputPathSuffix(input, "converted", uuid(1));
      Ok(ConvertToPdfCall(input, GenerateOutputPath(input, "converted", ".pdf", uuid(1))))
  }

  datatype ExtractCall = ExtractCall(inputPath: string, pages: Option<string>)

  /** `extract_text`: the extractor gets no output path. */
  function ExtractTextRoute(file: Option<string>, pages: Option<string>, secure: string -> string, uuid: nat -> Uuid)
    : (r: Result<ExtractCall, Response>)
    ensures r.Ok? <==> PdfFileGuard(file).None?
    ensures r.Ok? ==> r.value.pages == pages
    ensures r.Err? ==> r.error.status == 400
    ensures PdfFileGuard(file).Some? ==> r == Err(PdfFileGuard(file).value)
  {
    if PdfFileGuard(file).Some? then Err(PdfFileGuard(file).value)
    else Ok(ExtractCall(SavedUploadPath("pdf_text_input", uuid(0), secure, file.value), pages))
  }
}
