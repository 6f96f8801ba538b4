/** What the image and PDF routes share: the response they send, the upload check, where an
    upload is saved and where a tool's output goes.  Request decoding, file storage and
    `werkzeug.secure_filename` are outside the model: form fields arrive as optional texts, an
    upload as its file name, and `secure_filename` and the `uuid4()` values are parameters. */
module Http {
  import opened Wrappers
  import opened Strings
  import opened Paths
  import opened Base

  /** A JSON response body: a tool's result dictionary, `{'error': message}`, or an error
      message that lists an allow-set (Python joins a set in no fixed order, so the listing
      is kept as the prefix and the set). */
  datatype Body =
    | Envelope(fields: map<string, Json>)
    | Error(message: string)
    | ErrorListing(prefix: string, allowed: set<string>)

  datatype Response = Response(status: int, body: Body)

  function BadRequest(message: string): Response {
    Response(400, Error(message))
  }

  /** The catch-all handler of every route: `{'error': f'Internal server error: {e}'}`, 500. */
  function InternalError(message: string): Response {
    Response(500, Error("Internal server error: " + message))
  }

  /** The last step of every route: the tool's dictionary, with 200 when it reports success
      and 500 otherwise. */
  function Respond(result: ProcessingResult): (r: Response)
    ensures r.body == Envelope(result.ToDict())
    ensures r.status == 200 <==> Succeeded(result.ToDict())
    ensures r.status == 500 <==> !Succeeded(result.ToDict())
  {
    ToDictSucceeded(result);
    Response(if result.success then 200 else 500, Envelope(result.ToDict()))
  }

  /** A route either answers before calling its tool or hands the tool a call; the tool's
      result then decides the answer. */
  function Handle<C>(route: Result<C, Response>, run: C -> ProcessingResult): (r: Response)
    ensures route.Err? ==> r == route.error
    ensures route.Ok? ==> r.body == Envelope(run(route.value).ToDict())
    ensures route.Ok? ==> (r.status == 200 <==> run(route.value).success) && (r.status == 500 <==> !run(route.value).success)
  {
    if route.Ok? then ToDictSucceeded(run(route.value)); Respond(run(route.value))
    else route.error
  }

  /** `_validate_image_file` / `_validate_pdf_file`: a file without a name is missing, and
      the name's extension must be in the allow-set. */
  function ValidateUpload(filename: string, allowed: set<string>): (problem: Option<Body>)
    ensures problem.None? <==> filename != "" && IsAllowedExtension(filename, allowed)
    ensures filename == "" ==> problem == Some(Error("No file provided"))
  {
    if filename == "" then Some(Error("No file provided"))
    else if !IsAllowedExtension(filename, allowed) then Some(ErrorListing("Invalid file type. Allowed: ", allowed))
    else None
  }

  /** The `'file' not in request.files` test followed by the validator; `file` is the upload's
      file name, None when the request has no `file` part. */
  function FileGuard(file: Option<string>, allowed: set<string>): (problem: Option<Response>)
    ensures problem.None? <==> file.Some? && file.value != "" && IsAllowedExtension(file.value, allowed)
    ensures problem.Some? ==> problem.value.status == 400
  {
    if file.None? then Some(BadRequest("No file provided"))
    else
      match ValidateUpload(file.value, allowed)
      case Some(body) => Some(Response(400, body))
      case None => None
  }

  predicate IsUuidChar(c: char) {
    '0' <= c <= '9' || 'a' <= c <= 'f' || c == '-'
  }

  /** `str(uuid.uuid4())`: 36 lower-case hexadecimal digits and dashes. */
  type Uuid = s: string | |s| == 36 && forall i :: 0 <= i < |s| ==> IsUuidChar(s[i])
    witness "00000000-0000-0000-0000-000000000000"

  lemma UuidHasNoSeparator(id: Uuid)
    ensures '/' !in id && '.' !in id
  {
    forall i | 0 <= i < |id| ensures id[i] != '/' && id[i] != '.' { assert IsUuidChar(id[i]); }
  }

  /** `_save_uploaded_file`: the upload is stored in the upload folder under the sanitised
      `{prefix}_{uuid}_{secure_filename(name)}`. */
  function SavedUploadPath(prefix: string, id: Uuid, secure: string -> string, filename: string): (p: string)
    ensures Parent(p) == UploadFolder + "/"
    ensures Name(p) == SafeFilename(prefix + "_" + id + "_" + secure(filename))
  {
    var name := SafeFilename(prefix + "_" + id + "_" + secure(filename));
    assert '/' !in name by {
      forall i | 0 <= i < |name| ensures name[i] != '/' { assert !IsUnsafe(name[i]); }
    }
    JoinPath(UploadFolder, name)
  }

  /** The output file's name: `{stem}_{suffix}_{uuid}{ext}`, where `ext` is the given
      extension or, when that is empty, the input's own suffix. */
  function OutputName(inputPath: string, suffix: string, ext: string, id: Uuid): (name: string)
    ensures name != []
    ensures '/' !in suffix && '/' !in ext ==> '/' !in name
  {
    StemHasNoSeparator(inputPath);
    UuidHasNoSeparator(id);
    Stem(inputPath) + "_" + suffix + "_" + id + (if ext != "" then ext else Suffix(inputPath))
  }

  /** `_generate_output_path`: the output name in the output folder. */
  function GenerateOutputPath(inputPath: string, suffix: string, ext: string, id: Uuid): (p: string)
    ensures OutputFolder + "/" <= p && |p| > |OutputFolder| + 1
  {
    OutputFolder + "/" + OutputName(inputPath, suffix, ext, id)
  }

  /** The generated path sits in the output folder under the output name. */
  lemma OutputPathShape(inputPath: string, suffix: string, ext: string, id: Uuid)
    requires '/' !in suffix && '/' !in ext
    ensures var p := GenerateOutputPath(inputPath, suffix, ext, id);
            Parent(p) == OutputFolder + "/" && Name(p) == OutputName(inputPath, suffix, ext, id)
  {
    NameAfterParent(OutputFolder + "/", OutputName(inputPath, suffix, ext, id));
  }

  lemma OutputPathNamed(inputPath: string, suffix: string, ext: string, id: Uuid)
    requires '/' !in suffix && '/' !in ext
    ensures Name(GenerateOutputPath(inputPath, suffix, ext, id)) != []
    ensures Parent(GenerateOutputPath(inputPath, suffix, ext, id)) == OutputFolder + "/"
  {
    OutputPathShape(inputPath, suffix, ext, id);
    assert |OutputName(inputPath, suffix, ext, id)| > 0;
  }

  /** An extension given explicitly (such as ".pdf") becomes the output's suffix, whatever the
      suffix text in the middle of the name. */
  lemma OutputPathSuffix(inputPath: string, suffix: string, ext: string, id: Uuid)
    requires '/' !in ext
    requires |ext| >= 2 && ext[0] == '.' && '.' !in ext[1..]
    ensures Suffix(GenerateOutputPath(inputPath, suffix, ext, id)) == ext
  {
    var p := GenerateOutputPath(inputPath, suffix, ext, id);
    var head := OutputFolder + "/" + Stem(inputPath) + "_" + suffix;
    assert p == head + ("_" + id + ext) by {
      Regroup(OutputFolder + "/", Stem(inputPath), suffix, id, ext);
    }
    SuffixAfterTail(head, id, ext);
  }

  /** Without an explicit extension the output keeps the input's suffix, and its stem is
      `{stem}_{suffix}_{uuid}`. */
  lemma OutputPathKeepsSuffix(inputPath: string, suffix: string, id: Uuid)
    requires '/' !in suffix && Suffix(inputPath) != ""
    ensures Suffix(GenerateOutputPath(inputPath, suffix, "", id)) == Suffix(inputPath)
    ensures Stem(GenerateOutputPath(inputPath, suffix, "", id)) == Stem(inputPath) + "_" + suffix + "_" + id
  {
    var ext := Suffix(inputPath);
    var p := GenerateOutputPath(inputPath, suffix, "", id);
    assert p == GenerateOutputPath(inputPath, suffix, ext, id);
    OutputPathSuffix(inputPath, suffix, ext, id);
    OutputPathShape(inputPath, suffix, ext, id);
    var base := Stem(inputPath) + "_" + suffix + "_" + id;
    assert Stem(p) + ext == base + ext;
    assert Stem(p) == (Stem(p) + ext)[..|Stem(p)|];
  }

  /** A path ending in `_{uuid}{ext}` has the suffix `ext`. */
  lemma SuffixAfterTail(head: string, id: Uuid, ext: string)
    requires '/' !in ext
    requires |ext| >= 2 && ext[0] == '.' && '.' !in ext[1..]
    ensures Suffix(head + ("_" + id + ext)) == ext
  {
    var tail := "_" + id + ext;
    var p := head + tail;
    assert '/' !in tail by {
      UuidHasNoSeparator(id);
      assert tail == "_" + (id + ext);
    }
    NameOfAppended(head, tail);
    var base := Name(head) + "_" + id;
    assert Name(p) == base + ext by {
      TailRegroup(Name(head), id, ext);
    }
    SuffixOfNamed(p, base, ext);
  }

  lemma Regroup(folder: string, stem: string, suffix: string, id: string, ext: string)
    ensures folder + (stem + "_" + suffix + "_" + id + ext) == (folder + stem + "_" + suffix) + ("_" + id + ext)
  {
  }

  lemma TailRegroup(n: string, id: string, ext: string)
    ensures n + ("_" + id + ext) == (n + "_" + id) + ext
  {
  }

  /** Every PDF route names its output with the ".pdf" extension. */
  lemma PdfOutputPathSuffix(inputPath: string, suffix: string, id: Uuid)
    ensures Suffix(GenerateOutputPath(inputPath, suffix, ".pdf", id)) == ".pdf"
  {
    var ext := ".pdf";
    assert ext[1..] == "pdf";
    assert ext[0] == '.' && '.' !in ext[1..] && '/' !in ext;
    OutputPathSuffix(inputPath, suffix, ext, id);
  }

  /** `int(request.form.get(field, default))`: the default when the field is absent, else the
      field's text read as an integer (None where `int` raises ValueError). */
  function FormInt(field: Option<string>, default: int): (r: Option<int>)
    ensures field.None? ==> r == Some(default)
    ensures field.Some? ==> r == ParseInt(field.value)
  {
    if field.None? then Some(default) else ParseInt(field.value)
  }

  /** `request.form.get(field, 'true').lower() == 'true'`. */
  function FormFlag(field: Option<string>): (b: bool)
    ensures field.None? ==> b
  {
    Lower(field.GetOr("true")) == "true"
  }

  /** Any spelling of "true" turns the flag on, and nothing else does. */
  lemma FormFlagTrue(field: Option<string>)
    ensures FormFlag(field) <==> field.None? || Lower(field.value) == "true"
  {
  }
}
