# multitool PDF and image tools, modelled in Dafny

This project models the core of the multitool web application: a Flask service that offers
PDF and image tools.

- **Request guards.** The routes check each upload and each form field. They answer a request
  early with a 400 (or a 500), or they hand a tool its input path, output path and parameters.
- **Tools.** A tool does its work and returns the standard result envelope
  (`ProcessingResult.to_dict()`).
- **Response.** The route sends that envelope back with 200 when the tool succeeded and 500
  when it did not.

The modules follow the repository's structure:

| module | models |
|---|---|
| `Base` (base.dfy) | `app/utils/base.py`: the extension check, the safe-filename rewrite, the result envelope and the tool base class, with the allow-sets and folders of `app/config.py` |
| `PageRanges` (page_ranges.dfy) | `_parse_page_ranges`: the page-range grammar shared by split and text extraction |
| `PdfTools` (pdf_tools.dfy) | the PDF tools: split, merge, rearrange, convert-to-PDF and text extraction |
| `ImageTools` (image_tools.dfy) | the image-decision logic: the point-guided mask combination of background removal, the crop bounds check, and the format converter's transparency and quality rules |
| `Http` (http.dfy) | what both route files share: the upload check, where uploads are saved, how output paths are generated, form-field parsing, and the status rule |
| `ImageRoutes` (image_routes.dfy) | `app/routes/image_routes.py` |
| `PdfRoutes` (pdf_routes.dfy) | `app/routes/pdf_routes.py` |
| `Strings`, `Sequences`, `Paths`, `Wrappers` | the Python built-ins the code relies on: `str.strip`, `lower`, `upper`, `split`, `join`, `rfind`, `int(...)`, `str(n)`, `list(range(...))`, `pathlib`'s `name`, `suffix`, `stem`, `with_suffix` and `with_name`, and `Optional` values |

Everything outside the program is a parameter. This covers:

- reading a PDF, which gives its pages or the exception's text;
- opening an image, which gives its size or mode;
- the segmentation model's masks;
- `secure_filename`, `uuid4`, `json.loads`, `float` and `url_for`.

Each PDF tool is a **function**: the reference definition of its result and of the files
it writes. The tools whose source runs a loop (split, merge, rearrange and text extraction)
also have a **method** that follows those loops and is proved equal to the function.
Convert-to-PDF has no loop, so it is only a function.

Lemmas then state what the tool promises about that definition:

- the selected pages in their order;
- the per-page files and their distinct names;
- the concatenation of the merged inputs;
- rearranging is a permutation;
- the error that stops a merge.

`ToolBase` and `PdfMerger` are classes because the source builds them with a constructor. Their
fields are never reassigned after construction.

Some behaviours of the code are kept as written:

- JSON `true`/`false` pass the `isinstance(i, int)` checks as the indices 1 and 0.
- A merge order `[]` passes every check and then fails with a 500 on `input_paths[0]`.
- An empty `page_order` array passes the route and is refused by the rearranger with a 500.
- A lone comma as page ranges selects nothing, so a split writes every page.
- When converting to JPEG, the code flattens an `RGBA` image onto white through its alpha
  band (`app/tools/image/processors.py:387`), but pastes an `LA` image without a mask. The
  model follows the code.

## Model

| member | source | states |
|---|---|---|
| Strings.StripStart | app/utils/base.py:109 | `lstrip`: the result is a suffix of the input, every removed character is a stripped one, and the result does not start with one |
| Strings.StripEnd | app/utils/base.py:109 | `rstrip`: the result is a prefix, every removed character is a stripped one, and the result does not end with one |
| Strings.Strip | app/utils/base.py:109 | `strip`: the result neither starts nor ends with a stripped character (StripSlice states that only stripped characters are removed) |
| Strings.StripSlice | app/utils/base.py:109 | stripping returns a contiguous slice of the input, and every character removed before or after that slice is a stripped one |
| Strings.StripUnchanged | app/utils/base.py:109 | text that neither starts nor ends with a stripped character is left unchanged |
| Strings.StripSpace | app/tools/pdf/processors.py:39 | `strip()`: the result is no longer than the input and neither starts nor ends with whitespace |
| Strings.StripSpaceIdempotent | app/tools/pdf/processors.py:39 | stripping twice gives the same text as stripping once |
| Strings.Lower | app/utils/base.py:90 | `lower()` maps each character and keeps the length |
| Strings.Upper | app/tools/image/processors.py:384 | `upper()` maps each character and keeps the length |
| Strings.JoinEnds | app/tools/pdf/processors.py:267 | `sep.join(parts)` of a non-empty list starts with the first part followed by the separator when there is more than one part, and ends with the last part |
| Strings.LowerSlices | app/utils/base.py:90 | lower-casing commutes with slicing |
| Strings.LastIndexOf | app/tools/pdf/processors.py:108 | `rfind`: -1 exactly when the character is absent; otherwise it is the position of the character, and none follows it |
| Strings.LastIndexOfAt | app/tools/pdf/processors.py:108 | an occurrence with none after it is the one `rfind` returns |
| Strings.Split | app/tools/pdf/processors.py:38 | `split(',')` yields at least one piece, and no piece holds the separator |
| Strings.JoinSplit | app/tools/pdf/processors.py:38 | joining the pieces of `split` with the separator gives the text back |
| Strings.ParseInt | app/tools/pdf/processors.py:60 | a text reads as an integer exactly when, stripped of whitespace, it is an optional '+' or '-' followed by one or more decimal digits, and its value is then the one that literal denotes; a negative value needs a minus sign |
| Strings.ParseSigned | app/tools/pdf/processors.py:60 | a stripped text reads as an integer exactly when it is an optional sign followed by one or more decimal digits, with the value that literal denotes; it is negative only with a minus sign and never positive with one |
| Strings.DigitChar | app/tools/pdf/processors.py:108 | the digit character of `d` reads back as `d` |
| Strings.NatToString | app/tools/pdf/processors.py:108 | `str(n)` of a non-negative integer is a non-empty run of digits |
| Strings.NatToStringValue | app/tools/pdf/processors.py:108 | the decimal text of `n` has the value `n` |
| Strings.IntToString | app/tools/pdf/processors.py:267 | `str(n)` of an integer is non-empty, starts with '-' exactly when `n` is negative, and is otherwise made of digits |
| Strings.ParseDigits | app/routes/image_routes.py:99 | `int()` reads an optional minus sign followed by digits as the signed value |
| Strings.IntToStringParses | app/routes/image_routes.py:99 | `int(str(n)) == n` for every integer |
| Strings.IntToStringInjective | app/tools/pdf/processors.py:108 | different integers have different decimal texts |
| Sequences.Interval | app/tools/pdf/processors.py:35 | `list(range(lo, hi))`: its length and each element |
| Sequences.FirstIndex | app/tools/pdf/processors.py:67-70 | the first occurrence: the value is there and not earlier |
| Sequences.FirstIndexUnique | app/tools/pdf/processors.py:67-70 | a position holding `x` with no earlier `x` is the first index |
| Sequences.FirstIndexInPrefix | app/tools/pdf/processors.py:67-70 | a value's first occurrence in a prefix is its first occurrence in the whole sequence |
| Sequences.Dedup | app/tools/pdf/processors.py:67-70 | de-duplication never lengthens its input |
| Sequences.DedupMember | app/tools/pdf/processors.py:67-70 | de-duplication keeps exactly the values of its input |
| Sequences.DedupDistinct | app/tools/pdf/processors.py:67-70 | de-duplication leaves no value twice |
| Sequences.DedupOfDistinct | app/tools/pdf/processors.py:67-70 | a sequence without repeats is unchanged |
| Sequences.DedupKeepsFirstOccurrenceOrder | app/tools/pdf/processors.py:67-70 | kept values appear in the order of their first occurrences |
| Sequences.Select | app/tools/pdf/processors.py:83-86 | `[doc[i] for i in ix]`: its length and each element |
| Sequences.SelectAppend | app/tools/pdf/processors.py:184-186 | selecting `a + b` is selecting `a`, then `b` |
| Sequences.SelectInterval | app/tools/pdf/processors.py:83-86 | selecting consecutive positions is slicing |
| Sequences.SelectAll | app/tools/pdf/processors.py:98-106 | selecting every position in order gives the document back |
| Sequences.SelectPermutation | app/tools/pdf/processors.py:178-186 | selections by positions with equal multisets hold the same pages |
| Sequences.DistinctCounts | app/tools/pdf/processors.py:178-182 | in a sequence without repeats, each member occurs once |
| Sequences.PermutationOfInterval | app/tools/pdf/processors.py:178-182 | a sequence has the multiset of `range(n)` exactly when it has length `n`, no repeats, and every entry in `0..n-1` |
| Sequences.Flatten | app/tools/pdf/processors.py:141-145 | concatenating the documents gives a length equal to the sum of their lengths |
| Sequences.FlattenSingletons | app/tools/pdf/processors.py:98-106 | concatenating one-page pieces gives the document back |
| Paths.Parent | app/tools/pdf/processors.py:108 | the folder part is a prefix of the path, ending in '/' or empty |
| Paths.Name | app/utils/base.py:90 | `Path(p).name` holds no separator |
| Paths.ParentThenName | app/utils/base.py:90 | a path is its folder followed by its final component |
| Paths.SuffixStart | app/utils/base.py:90 | the suffix starts at the last dot, which is neither the first nor the last character |
| Paths.NameSuffix | app/utils/base.py:90 | a suffix is empty, or a dot followed by dot-free text ending the name |
| Paths.NameStem | app/utils/base.py:90 | a name is its stem followed by its suffix |
| Paths.Suffix | app/utils/base.py:90 | `Path(p).suffix` is empty, or a dot followed by text with no dot and no separator |
| Paths.Stem | app/tools/pdf/processors.py:108 | `name == stem + suffix` |
| Paths.WithName | app/tools/pdf/processors.py:108 | `with_name` keeps the folder and replaces the final component |
| Paths.WithSuffix | app/routes/image_routes.py:336 | `with_suffix` keeps the folder; the new name is the stem followed by the suffix |
| Paths.JoinPath | app/routes/image_routes.py:54 | `folder / name` has that name inside that folder |
| Paths.NameAfterParent | app/routes/image_routes.py:54 | the name after a folder ending in '/' is the final component |
| Paths.NameOfAppended | app/routes/pdf_routes.py:42 | separator-free text appended to a path extends its final component |
| Paths.SuffixOfDottedName | app/utils/base.py:90 | the name `base.ext` has suffix `.ext` and stem `base` |
| Paths.SuffixOfWithSuffix | app/routes/image_routes.py:336 | the suffix given to `with_suffix` is the suffix of the result |
| Paths.SuffixOfNamed | app/routes/pdf_routes.py:42 | a name made of a non-empty base and a dotted extension has that extension as its suffix |
| Paths.StemOfNamed | app/routes/image_routes.py:336 | a non-empty name has a non-empty stem |
| Paths.LastIndexOfLower | app/utils/base.py:90 | lower-casing moves neither separators nor dots |
| Paths.SuffixOfLower | app/utils/base.py:90 | `Path(p.lower()).suffix == Path(p).suffix.lower()` |
| Base.OptionalStr | app/utils/base.py:145-146 | an absent text becomes `null`, and nothing else does; a present text becomes that JSON string |
| Base.Extension | app/utils/base.py:90 | the lower-cased suffix without its dot; empty exactly when there is no suffix |
| Base.LstripDotOfSuffix | app/utils/base.py:90 | `lstrip('.')` on a suffix removes exactly its leading dot |
| Base.ExtensionOfDottedName | app/utils/base.py:90 | a name `base.ext` has the extension `ext.lower()` |
| Base.IsAllowedExtension | app/utils/base.py:79-91 | unless the empty extension is allowed, only a name with a suffix is accepted |
| Base.AllowedDottedName | app/utils/base.py:79-91 | the name `base.ext` is allowed exactly when `ext.lower()` is in the allow-set |
| Base.UpperCaseImageAccepted | app/utils/base.py:79-91 | any name followed by ".JPG" is an allowed image file: the check ignores case |
| Base.NoSuffixRejected | app/utils/base.py:79-91 | a name without a suffix is refused by the image, video and PDF allow-sets |
| Base.EmptyExtensionNotAllowed | app/config.py:22-24 | no allow-set contains the empty extension |
| Base.AllowedIgnoresCase | app/utils/base.py:79-91 | a file name and its lower-cased form are allowed alike |
| Base.ReplaceUnsafe | app/utils/base.py:106 | each of `<>:"/\|?*` becomes '_'; every other character is kept |
| Base.CollapseUnderscores | app/utils/base.py:108 | collapsing runs of '_' keeps the first and last characters and never lengthens the text; `CollapseIsCollapsed` states exactly which characters it keeps |
| Base.CollapsedCons | app/utils/base.py:108 | a character put in front of a text survives collapsing unless it is a '_' directly before another '_'; the rest collapses as before |
| Base.CollapsedPrefix | app/utils/base.py:108 | extending a text by one character extends its collapse by that character, unless it is a '_' right after a '_' |
| Base.CollapseIsCollapsed | app/utils/base.py:108 | `re.sub(r'_+', '_', s)` keeps exactly the characters of `s` that are not a '_' directly after another '_', in order, so each run of '_' becomes exactly one '_' |
| Base.CollapsedUnchanged | app/utils/base.py:108 | a text with no two adjacent underscores is left as it is |
| Base.CollapseShape | app/utils/base.py:108 | after collapsing, no "__" remains and no unsafe character is introduced |
| Base.CollapseNoDouble | app/utils/base.py:108 | text without "__" is unchanged by collapsing |
| Base.SafeFilename | app/utils/base.py:94-109 | a safe name has no unsafe character and no "__", and does not start or end with '_' |
| Base.SafeFilenameExample | app/utils/base.py:94-109 | `get_safe_filename("a//b??c.png")` is "a_b_c.png": each run of unsafe characters becomes one '_' |
| Base.CollapsedExample | app/utils/base.py:108 | collapsing "a__b__c.png" gives "a_b_c.png" (with `CollapsedExampleMiddle` and `CollapsedExampleFront` for its first eight characters) |
| Base.CollapsedExampleMiddle | app/utils/base.py:108 | the first eight characters of "a__b__c.png" collapse to "a_b_c." |
| Base.CollapsedExampleFront | app/utils/base.py:108 | the first four characters of "a__b__c.png" collapse to "a_b" |
| Base.StripKeepsShape | app/utils/base.py:109 | `strip('_')` keeps a text free of unsafe characters and "__" |
| Base.Kept | app/utils/base.py:94-109 | the characters a safe name keeps are neither unsafe nor '_' |
| Base.KeptAppend | app/utils/base.py:94-109 | the kept characters of `a + b` are those of `a` followed by those of `b` |
| Base.KeptReplaceUnsafe | app/utils/base.py:106 | replacing unsafe characters keeps every other character, in order |
| Base.KeptCollapse | app/utils/base.py:108 | collapsing underscores keeps every other character, in order |
| Base.KeptStrip | app/utils/base.py:109 | stripping '_' keeps every other character, in order |
| Base.SafeFilenameKeeps | app/utils/base.py:94-109 | `get_safe_filename` keeps every character that is neither unsafe nor '_', in order |
| Base.SafeFilenameFixes | app/utils/base.py:94-109 | a name that is already safe is returned unchanged |
| Base.SafeFilenameIdempotent | app/utils/base.py:94-109 | applying `get_safe_filename` twice is the same as applying it once |
| Base.LowerTwice | app/utils/base.py:90 | lower-casing is idempotent |
| Base.OutputUrl | app/tools/pdf/processors.py:23-25 | an output's URL is `url_for` of its file name; a bare name is passed unchanged |
| Base.OutputUrlIgnoresFolder | app/tools/pdf/processors.py:23-25 | the folder an output sits in does not change its URL: only the name after the last '/' reaches `url_for` |
| Base.ProcessingResult.ToDict | app/utils/base.py:135-148 | the envelope has exactly the keys success, message, output_path, output_url and metadata, with the result's values: `null` exactly for an absent output path or URL, the text itself for a present one; absent metadata becomes `{}` |
| Base.ToDictSucceeded | app/utils/base.py:135-148 | the envelope reports success exactly when the result does |
| Base.Failure | app/utils/base.py:117-133 | a failure envelope reports no success and carries its message |
| Base.StoredPath | app/utils/base.py:26 | `Path(p) if p else None`: an empty or absent output path is stored as None, any other is kept |
| Base.ToolBase.constructor | app/utils/base.py:17-27 | the tool keeps its input path, and its output path normalised as above |
| PageRanges.RangeStart | app/tools/pdf/processors.py:44-47 | an empty start is the first page; the start fails, with "Invalid page start", exactly when it is non-empty and not an integer literal; otherwise it is the literal's value minus one |
| PageRanges.RangeEnd | app/tools/pdf/processors.py:48-54 | an empty end is the last page; the end fails, with "Invalid page end", exactly when it is non-empty and not an integer literal; otherwise it is the literal's value minus one |
| PageRanges.NumberedStart | app/tools/pdf/processors.py:45 | the written start page n is the 0-based position n-1 |
| PageRanges.NumberedEnd | app/tools/pdf/processors.py:50 | the written end page n is the 0-based position n-1 |
| PageRanges.RangeBetween | app/tools/pdf/processors.py:55-57 | the positions a range token gives all lie within the document |
| PageRanges.RangeToken | app/tools/pdf/processors.py:42-57 | the positions of an `a-b` token lie within the document |
| PageRanges.NumberToken | app/tools/pdf/processors.py:58-65 | a token that is not an integer literal fails as an invalid page number; an integer page in 1..total yields the single position page - 1, and any other integer fails as out of bounds |
| PageRanges.TokenIndices | app/tools/pdf/processors.py:38-65 | each token's positions lie within the document |
| PageRanges.RawIndices | app/tools/pdf/processors.py:38-65 | the positions of all tokens lie within the document |
| PageRanges.PageRanges | app/tools/pdf/processors.py:28-70 | no text or empty text selects every page; a successful parse gives in-bounds positions without repeats |
| PageRanges.ParsePageRanges | app/tools/pdf/processors.py:28-70 | the parser's loops compute the reference definition |
| PageRanges.CollectIndices | app/tools/pdf/processors.py:38-65 | the loop over the comma-separated parts stops at the first failing part and otherwise concatenates their positions |
| PageRanges.DropRepeats | app/tools/pdf/processors.py:67-70 | the `seen`-set comprehension keeps each position at its first occurrence |
| PageRanges.RawIndicesErrorSticks | app/tools/pdf/processors.py:38-65 | the first failing part decides the error, whatever follows it |
| PageRanges.PageRangesFirstOccurrence | app/tools/pdf/processors.py:67-70 | the selected positions keep the order of their first mention |
| PageRanges.PageRangesMembers | app/tools/pdf/processors.py:67-70 | de-duplication loses no position that any part names |
| PageRanges.OneToken | app/tools/pdf/processors.py:38-70 | a text with no comma is parsed as its one token |
| PageRanges.PageToken | app/tools/pdf/processors.py:58-65 | a bare page number is accepted exactly when it lies in 1..total |
| PageRanges.DashToken | app/tools/pdf/processors.py:42-47 | an `x-y` token splits at its first '-' into start and end texts |
| PageRanges.BoundedRange | app/tools/pdf/processors.py:48-57 | a range `a-b` is invalid when a or b is below 1 or a > b; otherwise it is pages a..min(b, total) |
| PageRanges.ClosedRange | app/tools/pdf/processors.py:28-70 | "a-b" with 1 <= a <= b selects pages a..min(b, total) |
| PageRanges.ReversedRange | app/tools/pdf/processors.py:53-54 | "a-b" with b < a fails with "Invalid range" |
| PageRanges.OpenStartRange | app/tools/pdf/processors.py:45 | "-b" starts at the first page |
| PageRanges.OpenEndRange | app/tools/pdf/processors.py:46-57 | "a-" runs to the last page, and is an invalid range when a is past it |
| PageRanges.SinglePage | app/tools/pdf/processors.py:58-65 | a single page number must lie in 1..total and otherwise fails with "Page out of bounds" |
| PageRanges.BlankParts | app/tools/pdf/processors.py:40-41 | parts that are blank once stripped contribute nothing |
| PageRanges.LoneComma | app/tools/pdf/processors.py:38-41 | "," selects nothing and does not fail |
| PageRanges.TwoTokens | app/tools/pdf/processors.py:38-70 | two comma-separated tokens select the first token's positions, then the second's, each position kept only at its first mention |
| PageRanges.MixedRangesExample | app/tools/pdf/processors.py:38-70 | "3,1-3" on a five-page document selects positions 2, 0, 1: the repeat of page 3 inside "1-3" is dropped |
| PdfTools.OneBased | app/tools/pdf/processors.py:96 | `[i + 1 for i in indices]` element by element |
| PdfTools.PageFileName | app/tools/pdf/processors.py:108 | a per-page file name is non-empty and holds no separator |
| PdfTools.PageFilePaths | app/tools/pdf/processors.py:98-115 | the per-page paths, one per page, in page order |
| PdfTools.PageEntries | app/tools/pdf/processors.py:111-115 | the k-th `outputs` entry names the k-th page file, its URL and page number k+1 |
| PdfTools.PageFiles | app/tools/pdf/processors.py:98-115 | the page at position k is written alone to the k-th path |
| PdfTools.CopyPages | app/tools/pdf/processors.py:84-86 | the writer loop copies the selected pages in the given order |
| PdfTools.WriteEachPage | app/tools/pdf/processors.py:98-115 | the per-page loop writes those files and lists those entries |
| PdfTools.Split | app/tools/pdf/processors.py:76-127 | a split succeeds only when the PDF could be read; a failed split, or one without an output path, writes no file; a successful split to a file reports the requested output path |
| PdfTools.SplitPdf | app/tools/pdf/processors.py:76-127 | `PDFSplitter.process`, step by step, computes the reference definition `Split` |
| PdfTools.SplitSelection | app/tools/pdf/processors.py:83-97 | a non-empty selection writes exactly the selected pages, in the selection's order, to the output path |
| PdfTools.SplitClosedRange | app/tools/pdf/processors.py:83-97 | "a-b" within the document writes pages a..b, in order, to one file |
| PdfTools.SplitEveryPage | app/tools/pdf/processors.py:98-123 | with no selection, page k goes alone to `{stem}_page_{k+1}.pdf` next to the output; together the files hold the document in order |
| PdfTools.PageFilePathsDistinct | app/tools/pdf/processors.py:108 | different pages go to different files |
| PdfTools.PageFileNamesDistinct | app/tools/pdf/processors.py:108 | different pages get different file names |
| PdfTools.LoneCommaSplitsEveryPage | app/tools/pdf/processors.py:80-83 | a lone comma splits exactly as no range text does |
| PdfTools.SplitFailure | app/tools/pdf/processors.py:125-127 | a failed split reports no success, no output path and "Failed to split PDF: " followed by the error, and writes nothing |
| PdfTools.EmptyNameError | app/tools/pdf/processors.py:108 | the error pathlib raises for `with_name` on a path with an empty name quotes that path |
| PdfTools.SplitFailures | app/tools/pdf/processors.py:125-127 | an unreadable file or a bad range text gives "Failed to split PDF: ..." and writes nothing |
| PdfTools.SplitInMemoryPositions | app/tools/pdf/processors.py:88-101 | without an output path nothing is written, and the metadata lists the 0-based positions |
| PdfTools.PdfMerger.constructor | app/tools/pdf/processors.py:133-135 | the merger keeps its inputs and its normalised output path |
| PdfTools.MergedPages | app/tools/pdf/processors.py:141-145 | a failed merge fails with the error of one of its inputs |
| PdfTools.Merge | app/tools/pdf/processors.py:137-163 | the merge succeeds exactly when every input can be read, and writes a file exactly when it succeeds with an output path |
| PdfTools.PdfMerger.Process | app/tools/pdf/processors.py:137-163 | the merge loop computes the reference definition `Merge`, so it writes what `MergeWritesConcatenation` states |
| PdfTools.MergeWritesConcatenation | app/tools/pdf/processors.py:139-159 | when every input opens, a merge with an output path succeeds and writes exactly one file at that path, holding every input's pages in input order; the metadata lists the input paths and the total page count |
| PdfTools.MergedPagesErrorSticks | app/tools/pdf/processors.py:141-145 | once an input fails to open, the merge fails with that error |
| PdfTools.Documents | app/tools/pdf/processors.py:141-145 | the documents the inputs open to, in input order |
| PdfTools.MergedPagesConcatenate | app/tools/pdf/processors.py:141-145 | when every input opens, the merged pages are the inputs' pages concatenated in order; the page count is the sum |
| PdfTools.MergeFailsAtFirstUnreadable | app/tools/pdf/processors.py:141-145 | a failed merge reports the error of the first input that cannot be opened |
| PdfTools.MergedPagesAllOpen | app/tools/pdf/processors.py:141-145 | a merge that succeeds opened every input |
| PdfTools.ZeroBased | app/tools/pdf/processors.py:180 | `[p - 1 for p in page_order]` element by element |
| PdfTools.OrderError | app/tools/pdf/processors.py:174-182 | an accepted order is non-empty and has exactly one entry per page |
| PdfTools.OrderInBounds | app/tools/pdf/processors.py:178-182 | an accepted order points at pages of the document |
| PdfTools.Rearrange | app/tools/pdf/processors.py:169-204 | rearranging succeeds exactly when the PDF is read and the order is accepted; it writes one file, with as many pages as the input, exactly when it succeeds with an output path |
| PdfTools.RearrangePdf | app/tools/pdf/processors.py:169-204 | `PDFRearranger.process` with its writer loop computes the reference definition `Rearrange` |
| PdfTools.OrderAccepted | app/tools/pdf/processors.py:174-182 | an order is accepted exactly when it is non-empty and lists every page number 1..total once |
| PdfTools.EmptyDocumentRejectsEveryOrder | app/tools/pdf/processors.py:174-182 | no order is accepted for a document without pages |
| PdfTools.RearrangedPages | app/tools/pdf/processors.py:184-200 | output page k is input page `page_order[k]`, and the output is a permutation of the input |
| PdfTools.RearrangeRejects | app/tools/pdf/processors.py:174-182 | a rejected order writes nothing and reports the check's message |
| PdfTools.ConvertToPdf | app/tools/pdf/processors.py:212-250 | a file is copied or rendered only on success, with an output path and nothing raised; only a ".pdf" suffix (any case) is copied and only a supported image suffix is rendered |
| PdfTools.ConvertSucceeds | app/tools/pdf/processors.py:212-250 | conversion succeeds exactly for a `.pdf` input (copied when there is an output path) or a supported image with an output path, with no I/O failure |
| PdfTools.ConvertCopiesPdf | app/tools/pdf/processors.py:214-227 | a `.pdf` input, in any letter case, is copied unchanged to the output path |
| PdfTools.ConvertRejectsUnsupported | app/tools/pdf/processors.py:229-230 | any other suffix does nothing and reports "Unsupported input format for PDF conversion" |
| PdfTools.ConvertImageNeedsOutput | app/tools/pdf/processors.py:232-233 | a supported image with no output path is refused |
| PdfTools.ConvertRecordsSourceFormat | app/tools/pdf/processors.py:236-246 | a supported image is rendered to the output path, and its format is recorded without the dot; the format is an allowed image extension |
| PdfTools.SupportedSuffixAllowed | app/tools/pdf/processors.py:210 | every suffix convert-to-PDF renders is an allowed image extension with its dot |
| PdfTools.RenderedFormat | app/tools/pdf/processors.py:245 | `suffix.lower().lstrip('.')` is the extension the upload check uses |
| PdfTools.Extracted | app/tools/pdf/processors.py:261-265 | the k-th pair is the 1-based number of the k-th selected page and its text, or "" |
| PdfTools.PageText | app/tools/pdf/processors.py:264 | `page.extract_text() or ""`: the page's text when it has one, and "" exactly when it has none or an empty one |
| PdfTools.Section | app/tools/pdf/processors.py:267 | a `--- Page n ---` section is longer than the page text and ends with it |
| PdfTools.SectionReadsBack | app/tools/pdf/processors.py:267 | two sections are equal only when their page numbers and texts are equal: a section can be read back |
| PdfTools.Sections | app/tools/pdf/processors.py:267 | one `--- Page n ---` section per extracted pair |
| PdfTools.Numbers | app/tools/pdf/processors.py:269 | `pages_extracted` lists the numbers of the pairs in order |
| PdfTools.ExtractionResult | app/tools/pdf/processors.py:267-273 | an extraction result is a success without an output file, listing one page number per extracted page |
| PdfTools.ExtractText | app/tools/pdf/processors.py:256-277 | extraction succeeds exactly when the PDF is read and the page ranges parse; it never reports an output file |
| PdfTools.ExtractPages | app/tools/pdf/processors.py:261-265 | the extraction loop computes the reference definition `Extracted` |
| PdfTools.ExtractTextPdf | app/tools/pdf/processors.py:256-277 | `PDFTextExtractor.process` computes the reference definition `ExtractText` |
| PdfTools.ExtractEveryPage | app/tools/pdf/processors.py:260-273 | without a range text every page is extracted, numbered 1..total, and the text is the sections joined by blank lines |
| PdfTools.ExtractedNumbersValid | app/tools/pdf/processors.py:260-273 | the extracted page numbers are 1-based, within the document, and without repeats |
| PdfTools.SectionsMatchNumbers | app/tools/pdf/processors.py:267 | each section carries its page's number, and a page without text gives an empty section body |
| ImageTools.Zeros | app/tools/image/processors.py:356 | the all-false mask of the image's size |
| ImageTools.OrGrids | app/tools/image/processors.py:362 | `a \| b` is foreground exactly where either mask is |
| ImageTools.GuidedMaskStep | app/tools/image/processors.py:358-363 | each mask is ORed in exactly when one of the points lies on it |
| ImageTools.NothingGuidedYet | app/tools/image/processors.py:356 | with no masks nothing is foreground |
| ImageTools.CreateMaskFromPoints | app/tools/image/processors.py:343-365 | the nested loops compute the guided combination |
| ImageTools.GuidedMaskAt | app/tools/image/processors.py:343-365 | a pixel is foreground exactly when some mask holding a point covers it |
| ImageTools.GuidedMask | app/tools/image/processors.py:343-365 | the point-guided mask covers the whole image, one cell per pixel |
| ImageTools.UnionMask | app/tools/image/processors.py:312 | the union of all masks covers the whole image, one cell per pixel |
| ImageTools.GuidedWithinUnion | app/tools/image/processors.py:309-312 | the point-guided mask never exceeds the union of all masks |
| ImageTools.SelectedMaskKept | app/tools/image/processors.py:360-362 | a mask that holds one of the points is kept whole |
| ImageTools.Contains | app/tools/image/processors.py:361 | `mask[y, x]` for a point: a point on a mask has non-negative coordinates |
| ImageTools.ContainsInShape | app/tools/image/processors.py:361 | on an `h` by `w` mask, a point is on the mask exactly when it lies inside the bounds and that cell is set |
| ImageTools.StrayPointsSelectNothing | app/tools/image/processors.py:361 | points on no mask, including out-of-image ones, select nothing |
| ImageTools.AllSelectedIsUnion | app/tools/image/processors.py:309-312 | when every mask holds a point, the guided mask is the union |
| ImageTools.Alpha | app/tools/image/processors.py:316 | the alpha channel is 255 on foreground and 0 elsewhere |
| ImageTools.CombinedMask | app/tools/image/processors.py:308-312 | the combined mask has the image's size and is never foreground outside the union of the masks; with a non-empty list of points it is the point-guided mask, otherwise the union of all masks |
| ImageTools.RemoveBackground | app/tools/image/processors.py:267-341 | an alpha band is produced exactly when the removal succeeds, which needs no exception, a loaded image and at least one mask; the band has the image's size and holds only 0 and 255, and it is the alpha of the combined mask for the given points |
| ImageTools.RemoveBackgroundImage | app/tools/image/processors.py:267-341 | `BackgroundRemover.process` computes the reference definition `RemoveBackground` |
| ImageTools.RemovalOutcome | app/tools/image/processors.py:281-341 | removal succeeds exactly when the image loads and the model gives masks; it then records the mask count; a failure writes nothing |
| ImageTools.RemovalAlpha | app/tools/image/processors.py:309-316 | without points the alpha is 255 exactly where some mask covers the pixel; with points it is 255 exactly where some mask that contains a point covers the pixel; it is never outside the union and is always 0 or 255 |
| ImageTools.CropImage | app/tools/image/processors.py:84-132 | a crop box is produced exactly when the crop succeeds; it has the requested size and does not pass the image's right or bottom edge |
| ImageTools.CropBounds | app/tools/image/processors.py:100-107 | a crop succeeds exactly when it fits the image, with box (x, y, x+w, y+h); otherwise it fails with "Crop coordinates exceed image boundaries" |
| ImageTools.CropInsideImage | app/tools/image/processors.py:100-107 | with the route's sign checks, a successful crop box lies inside the image and has the requested size |
| ImageTools.Prepare | app/tools/image/processors.py:384-388 | only a JPEG target with an RGBA or LA image is flattened onto white, through the alpha band only for RGBA |
| ImageTools.SaveQuality | app/tools/image/processors.py:391-393 | quality is passed only for JPEG and WEBP, as given |
| ImageTools.ConvertFormatIgnoresCase | app/tools/image/processors.py:384-405 | the converter depends on the target format only through its upper-case form |
| ImageTools.ConvertFormat | app/tools/image/processors.py:370-419 | conversion succeeds exactly when the image opens; it saves exactly when there is an output path, to that path in the upper-cased format |
| ImageTools.ConvertFormatRules | app/tools/image/processors.py:382-407 | with an output path, the image is saved in the upper-case format; quality is used and recorded exactly for lossy targets; flattening happens exactly for JPEG with alpha |
| Http.Respond | app/routes/pdf_routes.py:67 | the tool's envelope is sent with 200 when it reports success and 500 otherwise |
| Http.Handle | app/routes/pdf_routes.py:67 | an early answer is sent as it is; a route that reaches its tool sends the tool's dictionary, with 200 exactly when the tool succeeds and 500 otherwise |
| Http.ValidateUpload | app/routes/pdf_routes.py:23-28 | a file passes exactly when it has a name with an allowed extension; a missing name gives "No file provided" |
| Http.FileGuard | app/routes/image_routes.py:23-39 | an upload passes exactly when present, named and allowed; every refusal is a 400 |
| Http.UuidHasNoSeparator | app/routes/image_routes.py:53 | a uuid holds no separator and no dot |
| Http.SavedUploadPath | app/routes/image_routes.py:41-56 | an upload is saved in the upload folder under the safe form of `{prefix}_{uuid}_{secure name}` |
| Http.OutputName | app/routes/pdf_routes.py:39-43 | the output name is never empty and, for a separator-free suffix and extension, is a single path component; its suffix and stem are stated by `OutputPathSuffix` and `OutputPathKeepsSuffix` |
| Http.GenerateOutputPath | app/routes/pdf_routes.py:39-43 | every generated path starts with the output folder and a separator, followed by a non-empty name; `OutputPathShape`, `OutputPathSuffix` and `OutputPathKeepsSuffix` state its name, suffix and stem |
| Http.OutputPathShape | app/routes/pdf_routes.py:39-43 | a generated path is the output name inside the output folder |
| Http.OutputPathNamed | app/routes/pdf_routes.py:39-43 | a generated path always has a non-empty file name and sits directly in the output folder |
| Http.OutputPathSuffix | app/routes/pdf_routes.py:39-43 | an explicit extension becomes the suffix of the generated path, whatever the stem and suffix text |
| Http.OutputPathKeepsSuffix | app/routes/pdf_routes.py:39-43 | with no explicit extension, an input that has a suffix passes it on to the generated path, whose stem is the input's stem, the suffix text and the uuid joined by '_' |
| Http.PdfOutputPathSuffix | app/routes/pdf_routes.py:60 | every PDF route's output path ends in ".pdf" |
| Http.FormInt | app/routes/image_routes.py:99-102 | an absent field gives the default; a present one is read with `int` |
| Http.FormFlagTrue | app/routes/image_routes.py:107 | a flag is on exactly when absent or spelled "true" in any case |
| Http.FormFlag | app/routes/image_routes.py:107 | an absent flag is on |
| ImageRoutes.ImageFileGuard | app/routes/image_routes.py:23-39 | an image upload passes exactly when present, named and allowed; every refusal is a 400 |
| ImageRoutes.ResizeDimensions | app/routes/image_routes.py:98-105 | width and height pass exactly when both read as positive integers |
| ImageRoutes.ResizeNeedsBothFields | app/routes/image_routes.py:99-105 | an absent width or height reads as 0 and is refused |
| ImageRoutes.ResizeRoute | app/routes/image_routes.py:73-126 | resize reaches the tool exactly when the upload and dimensions pass; `maintain_aspect` defaults to on; every refusal is a 400, a refused upload answers with its guard's error and bad dimensions with their error |
| ImageRoutes.CropFields | app/routes/image_routes.py:154-163 | the crop fields pass exactly when all read as integers, x and y are non-negative, and the size is positive |
| ImageRoutes.CropRoute | app/routes/image_routes.py:128-163 | crop reaches the tool exactly when the upload and fields pass |
| ImageRoutes.CropResponse | app/routes/image_routes.py:129-182 | an early answer is sent as it is; after the guards, an image that cannot be opened gives 500 and a 200 means the box fits the image |
| ImageRoutes.CropStatus | app/routes/image_routes.py:128-182 | crop answers 400 exactly for a negative origin or a non-positive size, and 200 exactly when the box also fits the image; a 200 box lies inside the image |
| ImageRoutes.RotateRoute | app/routes/image_routes.py:184-232 | rotate reaches the tool exactly when the upload passes and the angle, if given, is a number; the angle defaults to 0 and `expand` to on; every refusal is a 400, and a non-numeric angle gives "Invalid angle value" |
| ImageRoutes.PngOutputPath | app/routes/image_routes.py:333-336 | background removal writes a ".png" file in the output folder |
| ImageRoutes.RemoveBackgroundRoute | app/routes/image_routes.py:298-351 | removal reaches the tool exactly when the upload passes and any points text decodes; the output is ".png"; empty points text means no points; every refusal is a 400, and points text that does not decode gives "Invalid foreground_points JSON" |
| ImageRoutes.FormatExtensionShape | app/routes/image_routes.py:382-404 | every accepted target format has a dotted extension |
| ImageRoutes.ConvertedOutputPath | app/routes/image_routes.py:395-405 | the converted file is in the output folder with the target format's extension |
| ImageRoutes.TargetFormat | app/routes/image_routes.py:378-384 | the upper-cased target must be one of JPEG, PNG, WEBP, BMP and TIFF |
| ImageRoutes.Quality | app/routes/image_routes.py:386-392 | quality defaults to 95 and must be an integer in 1..100 |
| ImageRoutes.ConvertFormatRoute | app/routes/image_routes.py:353-420 | conversion reaches the tool exactly when upload, format and quality pass; the output carries the format's extension; every refusal is a 400, carrying the upload's, the format's or the quality's error in that order |
| ImageRoutes.ConvertFormatEndToEnd | app/routes/image_routes.py:395-409 | a call the route builds is saved with quality exactly for lossy targets, and flattened exactly for JPEG with alpha |
| PdfRoutes.PdfFileGuard | app/routes/pdf_routes.py:23-28 | a PDF upload passes exactly when present, named and ".pdf" in any case; every refusal is a 400 |
| PdfRoutes.ValidatePdf | app/routes/pdf_routes.py:23-28 | a selected merge upload passes exactly when named and ".pdf" |
| PdfRoutes.JsonInt | app/routes/pdf_routes.py:86 | `isinstance(v, int)` accepts integers and booleans (as 1 and 0) and nothing else |
| PdfRoutes.IntArray | app/routes/pdf_routes.py:86 | a decoded value passes exactly when it is a list of such integers, and gives them in order |
| PdfRoutes.IntArrayOfIntList | app/routes/pdf_routes.py:86 | a page list the tools report as JSON integers passes the integer-list check and reads back as the same integers |
| PdfRoutes.SplitRoute | app/routes/pdf_routes.py:46-69 | split reaches the tool exactly when the upload passes, with the range text unchanged and a ".pdf" output; every refusal is a 400 and a refused upload answers with its guard's error |
| PdfRoutes.MergeOrder | app/routes/pdf_routes.py:81-91 | no order means upload order; a given order passes exactly when it decodes to a list of integers; refusals are 400 |
| PdfRoutes.EntryProblem | app/routes/pdf_routes.py:94-100 | an order entry passes exactly when it is in range and names a valid upload |
| PdfRoutes.FirstProblem | app/routes/pdf_routes.py:93-101 | the loop answers with a problem of some entry, and passes exactly when no entry has one |
| PdfRoutes.FirstProblemIsFirst | app/routes/pdf_routes.py:93-101 | the first entry with a problem is the one that answers |
| PdfRoutes.ResolveInputs | app/routes/pdf_routes.py:93-101 | the inputs are resolved exactly when every entry passes; then the k-th input is the saved copy of upload `order[k]`, saved with the k-th uuid |
| PdfRoutes.ResolveMergeInputs | app/routes/pdf_routes.py:93-101 | the loop with its early returns computes the reference definition `ResolveInputs` |
| PdfRoutes.ResolveRejects | app/routes/pdf_routes.py:93-100 | an early return at the first entry with a problem answers with that problem, as the reference definition does |
| PdfRoutes.ResolveAccepts | app/routes/pdf_routes.py:93-101 | when no entry has a problem, the saved paths collected in order are the reference result |
| PdfRoutes.ValidEntries | app/routes/pdf_routes.py:94-100 | in-range entries naming valid ".pdf" uploads have no problem |
| PdfRoutes.MergeResolves | app/routes/pdf_routes.py:82-105 | an accepted non-empty order whose entries all pass reaches the merger with the resolved inputs |
| PdfRoutes.MergeRoute | app/routes/pdf_routes.py:71-112 | a merge reaches the merger only with at least two uploads, an accepted order and its resolved, non-empty inputs, writing into the output folder; no uploads, fewer than two, a refused order and an input that fails to resolve each give their 400, and the 500 "list index out of range" arises exactly when the order is accepted but empty |
| PdfRoutes.MergeNeedsTwoFiles | app/routes/pdf_routes.py:77-79 | fewer than two uploads are refused with 400 |
| PdfRoutes.MergeDefaultOrder | app/routes/pdf_routes.py:90-105 | without an order, every valid upload is merged in upload order |
| PdfRoutes.MergeFollowsOrder | app/routes/pdf_routes.py:82-105 | a valid order selects those uploads, in that order, repeats included |
| PdfRoutes.MergeEmptyOrder | app/routes/pdf_routes.py:83-112 | the order "[]" passes every check and then fails with a 500 on `input_paths[0]` |
| PdfRoutes.BooleansAreIndices | app/routes/pdf_routes.py:86 | JSON true and false pass as the indices 1 and 0 |
| PdfRoutes.PageOrder | app/routes/pdf_routes.py:124-132 | `page_order` is required and must decode to a list of integers; refusals are 400 |
| PdfRoutes.RearrangeRoute | app/routes/pdf_routes.py:114-143 | rearrange reaches the tool exactly when the upload and the order pass, with a ".pdf" output; every refusal is a 400, carrying the upload's or the order's error |
| PdfRoutes.RearrangeEmptyArray | app/routes/pdf_routes.py:124-141 | the array "[]" passes the route and is refused by the rearranger, giving a 500 |
| PdfRoutes.ConvertToPdfRoute | app/routes/pdf_routes.py:145-165 | convert-to-PDF only needs a named upload, and always gets a ".pdf" output; its only refusal is 400 "No file provided" |
| PdfRoutes.ExtractTextRoute | app/routes/pdf_routes.py:167-186 | text extraction reaches the tool exactly when the upload passes, with the range text unchanged; every refusal is a 400 and a refused upload answers with its guard's error |

## Left out

- Flask plumbing is not modelled: request objects, `jsonify`, blueprints and the `try`/`except`
  wrappers. A route is its decision, meaning the early response or the call it makes. The
  catch-all 500 appears only where the model shows the exception (`input_paths[0]`).
- `url_for` is the parameter `urlFor`, and `secure_filename` is the parameter `secure`.
  `uuid.uuid4()` is the parameter `uuid`: the k-th call of a request gives the k-th value.
  `json.loads` and `float` are parameters too.
- File I/O is not modelled: `os.remove`, the existence checks in `ToolBase.__init__`, and
  `get_file_info`. The PDF library is a read outcome and the pages it gives, and writing a file
  is a `Written` record. cv2 and PIL calls are their outcomes.
- The resize, rotate and enhance tools are not modelled: their work is PIL resampling and
  floating-point arithmetic. Their routes' guards are modelled, except for enhance, whose
  floating-point range checks are left out with the route. The image info route is left out too.
- The YOLO model is not modelled, and neither is the binarise-and-resize loop over the masks
  (`app/tools/image/processors.py:296-301`). That loop works on float tensors. The model takes
  the resized boolean masks as input and keeps the empty-list check.
- Foreground points are taken as decoded `(x, y)` integer pairs. JSON that decodes to
  non-integer points is outside the model.
- Case mapping covers ASCII letters only. Python's full Unicode `lower()`/`upper()` is not
  modelled.
- `Strings.ParseInt` reads only ASCII digits with no `_` grouping. Python's `int()` also
  accepts `_` between digits and non-ASCII decimal digits. So "1_0" is page 10 in the source's
  page ranges (`app/tools/pdf/processors.py:45`, `:50`, `:60`), but the model answers "Invalid
  page number". As a width, height, crop field or quality
  (`app/routes/image_routes.py:99`, `:155`, `:387`) the source accepts it, where the model
  answers 400.
- `Strings.IsSpace` covers whitespace up to U+00FF only. `str.strip()` and `int()` also drop
  the other Unicode spaces (U+1680, U+2000 to U+200A, U+2028, U+2029, U+205F, U+3000). Text
  surrounded by them parses in the source but not in the model.
- `Paths.Name` takes the text after the last '/' and does not normalise the path as pathlib
  does: repeated separators and `.` components are not collapsed, and a trailing '/' or "/."
  is not dropped. For an upload named "photo.png/" or "photo.png/." the model's name is
  empty, so `Base.IsAllowedExtension`, `Http.ValidateUpload`, `Http.FileGuard`,
  `ImageRoutes.ImageFileGuard`, `PdfRoutes.PdfFileGuard` and `PdfRoutes.ValidatePdf` refuse
  it with 400 "Invalid file type". The source's `Path(...).name` is "photo.png", so it accepts
  the upload. `Paths.Suffix`, `Paths.Stem` and `Base.Extension` inherit the same difference.
- `Http.ValidateUpload` is weaker on the error text: the "Invalid file type" message keeps the
  allow-set as a set, because `', '.join` of a Python set has no fixed order.
- `ImageTools.RemovalOutcome` is weaker on exceptions: it does not say where in the removal an
  exception arises. A failure is a single optional message.
- `PdfTools.ConvertSucceeds` is weaker on exceptions in the same way: an exception from the
  copy or the rendering is a single optional message.
- `ImageTools.CropImage` does not model an exception from `cropped.save`
  (`app/tools/image/processors.py:110`). The save is assumed to succeed, so the crop succeeds
  whenever the image opens and the box fits. `ImageRoutes.CropStatus`'s "200 exactly when the
  box fits" inherits this.
- `PdfTools.Split`, `PdfTools.Merge` and `PdfTools.Rearrange` do not model a failed write.
  `open(..., 'wb')` and `writer.write` are assumed to succeed
  (`app/tools/pdf/processors.py:91-92`, `:109-110`, `:150-151`, `:191-192`). So the model
  never shows a split that fails after some per-page files were already written, and
  `PdfTools.SplitFailures` covers only an unreadable file or a bad range text.
- `PdfTools.RearrangedPages` does not show the rearrange metadata's booleans: booleans in
  `page_order` are echoed as the integers 1 and 0.
- The video routes (`app/routes/video_routes.py`) and the main routes are not part of this
  model.
