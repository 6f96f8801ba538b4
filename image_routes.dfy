/** The image routes' parameter guards: each handler checks the upload, reads and checks its
    form fields, answers 400 at the first problem, and otherwise saves the upload, chooses the
    output path and calls its tool.  A handler is modelled as its decision: the early response
    or the call it makes. */
module ImageRoutes {
  import opened Wrappers
  import opened Strings
  import opened Paths
  import opened Base
  import opened Http
  import opened ImageTools

  /** `_validate_image_file`, preceded by the `'file' not in request.files` test. */
  function ImageFileGuard(file: Option<string>): (problem: Option<Response>)
    ensures problem.None? <==> file.Some? && file.value != "" && IsAllowedExtension(file.value, AllowedImageExtensions)
    ensures problem.Some? ==> problem.value.status == 400
  {
    FileGuard(file, AllowedImageExtensions)
  }

  // ---------------------------------------------------------------- resize

  datatype ResizeCall = ResizeCall(inputPath: string, outputPath: string, width: int, height: int, maintainAspect: bool)

  /** The width and height fields of `resize_image`: both default to 0 and must read as
      positive integers. */
  function ResizeDimensions(width: Option<string>, height: Option<string>): (r: Result<(int, int), Response>)
    ensures r.Ok? <==> FormInt(width, 0).Some? && FormInt(width, 0).value > 0 &&
                       FormInt(height, 0).Some? && FormInt(height, 0).value > 0
    ensures r.Ok? ==> r.value == (FormInt(width, 0).value, FormInt(height, 0).value)
    ensures r.Err? ==> r.error.status == 400
  {
    if FormInt(width, 0).None? || FormInt(height, 0).None? then Err(BadRequest("Invalid width or height values"))
    else
      var w, h := FormInt(width, 0).value, FormInt(height, 0).value;
      if w <= 0 || h <= 0 then Err(BadRequest("Width and height must be positive integers"))
      else Ok((w, h))
  }

  /** An absent width or height reads as 0 and is refused as not positive. */
  lemma ResizeNeedsBothFields(width: Option<string>, height: Option<string>)
    requires width.None? || height.None?
    ensures ResizeDimensions(width, height).Err?
  {
  }

  /** `resize_image`: `maintain_aspect` defaults to true. */
  function ResizeRoute(file: Option<string>, width: Option<string>, height: Option<string>,
                       maintainAspect: Option<string>, secure: string -> string, uuid: nat -> Uuid)
    : (r: Result<ResizeCall, Response>)
    ensures r.Ok? <==> ImageFileGuard(file).None? && ResizeDimensions(width, height).Ok?
    ensures r.Ok? ==> (r.value.width, r.value.height) == ResizeDimensions(width, height).value
    ensures r.Ok? ==> r.value.maintainAspect == FormFlag(maintainAspect)
    ensures r.Err? ==> r.error.status == 400
    ensures ImageFileGuard(file).Some? ==> r == Err(ImageFileGuard(file).value)
    ensures ImageFileGuard(file).None? && ResizeDimensions(width, height).Err? ==>
              r == Err(ResizeDimensions(width, height).error)
  {
    if ImageFileGuard(file).Some? then Err(ImageFileGuard(file).value)
    else
      var (w, h) :- ResizeDimensions(width, height);
      var input := SavedUploadPath("resize_input", uuid(0), secure, file.value);
      Ok(ResizeCall(input, GenerateOutputPath(input, "resized", "", uuid(1)), w, h, FormFlag(maintainAspect)))
  }

  // ---------------------------------------------------------------- crop

  datatype CropCall = CropCall(inputPath: string, outputPath: string, x: int, y: int, width: int, height: int)

  /** The four fields of `crop_image`: each defaults to 0 and must read as an integer; the
      origin must be non-negative and the size positive. */
  function CropFields(x: Option<string>, y: Option<string>, width: Option<string>, height: Option<string>)
    : (r: Result<(int, int, int, int), Response>)
    ensures r.Ok? <==> FormInt(x, 0).Some? && FormInt(y, 0).Some? && FormInt(width, 0).Some? && FormInt(height, 0).Some? &&
                       FormInt(x, 0).value >= 0 && FormInt(y, 0).value >= 0 &&
                       FormInt(width, 0).value > 0 && FormInt(height, 0).value > 0
    ensures r.Ok? ==> r.value == (FormInt(x, 0).value, FormInt(y, 0).value, FormInt(width, 0).value, FormInt(height, 0).value)
    ensures r.Err? ==> r.error.status == 400
  {
    if FormInt(x, 0).None? || FormInt(y, 0).None? || FormInt(width, 0).None? || FormInt(height, 0).None? then
      Err(BadRequest("Invalid coordinate or dimension values"))
    else
      var cx, cy, w, h := FormInt(x, 0).value, FormInt(y, 0).value, FormInt(width, 0).value, FormInt(height, 0).value;
      if cx < 0 || cy < 0 || w <= 0 || h <= 0 then Err(BadRequest("Invalid crop coordinates or dimensions"))
      else Ok((cx, cy, w, h))
  }

  /** `crop_image`: the upload check, then the fields.  Whether the rectangle fits the image is
      left to the cropper. */
  function CropRoute(file: Option<string>, x: Option<string>, y: Option<string>, width: Option<string>,
                     height: Option<string>, secure: string -> string, uuid: nat -> Uuid)
    : (r: Result<CropCall, Response>)
    ensures r.Ok? <==> ImageFileGuard(file).None? && CropFields(x, y, width, height).Ok?
    ensures r.Ok? ==> (r.value.x, r.value.y, r.value.width, r.value.height) == CropFields(x, y, width, height).value
    ensures r.Err? ==> r.error.status == 400
  {
    if ImageFileGuard(file).Some? then Err(ImageFileGuard(file).value)
    else
      var (cx, cy, w, h) :- CropFields(x, y, width, height);
      var input := SavedUploadPath("crop_input", uuid(0), secure, file.value);
      Ok(CropCall(input, GenerateOutputPath(input, "cropped", "", uuid(1)), cx, cy, w, h))
  }

  /** The whole crop request: the route's guards, then `ImageCropper` on the image of the
      given `(width, height)` (or the error raised opening it). */
  function CropResponse(route: Result<CropCall, Response>, loaded: Result<(int, int), string>,
                        urlFor: string -> string): (r: Response)
    ensures route.Err? ==> r == route.error
    ensures route.Ok? && loaded.Err? ==> r.status == 500
    ensures route.Ok? && r.status == 200 ==> loaded.Ok? && route.value.x + route.value.width <= loaded.value.0
                                                        && route.value.y + route.value.height <= loaded.value.1
  {
    var crop := (c: CropCall) =>
      CropImage(StoredPath(Some(c.outputPath)), loaded, c.x, c.y, c.width, c.height, urlFor).result;
    if route.Err? then route.error
    else
      var c := route.value;
      var run := CropImage(StoredPath(Some(c.outputPath)), loaded, c.x, c.y, c.width, c.height, urlFor);
      assert crop(c) == run.result;
      Handle(route, crop)
  }

  /** The route refuses a negative origin or an empty size with 400 before the cropper runs;
      a request it accepts gets 200 exactly when the rectangle fits the image and 500 when it
      runs past an edge, and the box cut out then lies inside the image. */
  lemma CropStatus(file: Option<string>, x: Option<string>, y: Option<string>, width: Option<string>,
                   height: Option<string>, secure: string -> string, uuid: nat -> Uuid,
                   imgWidth: int, imgHeight: int, urlFor: string -> string)
    requires ImageFileGuard(file).None?
    requires FormInt(x, 0).Some? && FormInt(y, 0).Some? && FormInt(width, 0).Some? && FormInt(height, 0).Some?
    ensures var cx, cy, w, h := FormInt(x, 0).value, FormInt(y, 0).value, FormInt(width, 0).value, FormInt(height, 0).value;
            var route := CropRoute(file, x, y, width, height, secure, uuid);
            var r := CropResponse(route, Ok((imgWidth, imgHeight)), urlFor);
            (r.status == 400 <==> cx < 0 || cy < 0 || w <= 0 || h <= 0) &&
            (r.status == 200 <==> cx >= 0 && cy >= 0 && w > 0 && h > 0 && cx + w <= imgWidth && cy + h <= imgHeight) &&
            (r.status == 200 ==> 0 <= cx < cx + w <= imgWidth && 0 <= cy < cy + h <= imgHeight)
  {
    var route := CropRoute(file, x, y, width, height, secure, uuid);
    if route.Ok? {
      var c := route.value;
      var run := CropImage(StoredPath(Some(c.outputPath)), Ok((imgWidth, imgHeight)), c.x, c.y, c.width, c.height, urlFor);
      CropBounds(StoredPath(Some(c.outputPath)), imgWidth, imgHeight, c.x, c.y, c.width, c.height, urlFor);
    }
  }

  // ---------------------------------------------------------------- rotate

  datatype RotateCall = RotateCall(inputPath: string, outputPath: string, angle: real, expand: bool)

  /** `rotate_image`: the angle defaults to 0 and must read as a number (`parseFloat` stands
      for Python's `float`); `expand` defaults to true. */
  function RotateRoute(file: Option<string>, angle: Option<string>, expand: Option<string>,
                       parseFloat: string -> Option<real>, secure: string -> string, uuid: nat -> Uuid)
    : (r: Result<RotateCall, Response>)
    ensures r.Ok? <==> ImageFileGuard(file).None? && (angle.None? || parseFloat(angle.value).Some?)
    ensures r.Ok? ==> r.value.angle == (if angle.None? then 0.0 else parseFloat(angle.value).value)
    ensures r.Ok? ==> r.value.expand == FormFlag(expand)
    ensures r.Err? ==> r.error.status == 400
    ensures ImageFileGuard(file).Some? ==> r == Err(ImageFileGuard(file).value)
    ensures ImageFileGuard(file).None? && angle.Some? && parseFloat(angle.value).None? ==>
              r == Err(BadRequest("Invalid angle value"))
  {
    if ImageFileGuard(file).Some? then Err(ImageFileGuard(file).value)
    else
      var parsed := if angle.None? then Some(0.0) else parseFloat(angle.value);
      if parsed.None? then Err(BadRequest("Invalid angle value"))
      else
        var input := SavedUploadPath("rotate_input", uuid(0), secure, file.value);
        Ok(RotateCall(input, GenerateOutputPath(input, "rotated", "", uuid(1)), parsed.value, FormFlag(expand)))
  }

  // ---------------------------------------------------------------- remove background

  datatype RemovalCall = RemovalCall(inputPath: string, outputPath: string, points: Option<seq<Point>>)

  /** The name parts the image routes put in their output names hold no separator. */
  lemma NoSeparatorInSuffixes()
    ensures '/' !in "no_bg" && '/' !in "converted" && '/' !in ""
  {
  }

  lemma PngSuffixShape()
    ensures var e := ".png"; |e| >= 2 && e[0] == '.' && '.' !in e[1..] && '/' !in e
  {
    assert ".png"[1..] == "png";
  }

  /** The output of background removal: the generated path with its suffix forced to ".png". */
  function PngOutputPath(inputPath: string, id: Uuid): (p: string)
    ensures Parent(p) == OutputFolder + "/" && Suffix(p) == ".png"
  {
    var generated := GenerateOutputPath(inputPath, "no_bg", "", id);
    NoSeparatorInSuffixes();
    OutputPathNamed(inputPath, "no_bg", "", id);
    PngSuffixShape();
    SuffixOfWithSuffix(generated, ".png");
    WithSuffix(generated, ".png")
  }

  /** `remove_background`: an absent or empty `foreground_points` field means no points; any
      other text must decode (`decode` stands for `json.loads`, None where it raises). */
  function RemoveBackgroundRoute(file: Option<string>, pointsField: Option<string>,
                                 decode: string -> Option<seq<Point>>, secure: string -> string,
                                 uuid: nat -> Uuid): (r: Result<RemovalCall, Response>)
    ensures r.Ok? <==> ImageFileGuard(file).None? &&
                       (pointsField.None? || pointsField.value == "" || decode(pointsField.value).Some?)
    ensures r.Ok? ==> Suffix(r.value.outputPath) == ".png"
    ensures r.Ok? ==> r.value.points == if pointsField.None? || pointsField.value == "" then None else decode(pointsField.value)
    ensures r.Err? ==> r.error.status == 400
    ensures ImageFileGuard(file).Some? ==> r == Err(ImageFileGuard(file).value)
    ensures ImageFileGuard(file).None? && pointsField.Some? && pointsField.value != "" && decode(pointsField.value).None? ==>
              r == Err(BadRequest("Invalid foreground_points JSON"))
  {
    if ImageFileGuard(file).Some? then Err(ImageFileGuard(file).value)
    else if pointsField.Some? && pointsField.value != "" && decode(pointsField.value).None? then
      Err(BadRequest("Invalid foreground_points JSON"))
    else
      var points := if pointsField.None? || pointsField.value == "" then None else decode(pointsField.value);
      var input := SavedUploadPath("bg_remove_input", uuid(0), secure, file.value);
      Ok(RemovalCall(input, PngOutputPath(input, uuid(1)), points))
  }

  // ---------------------------------------------------------------- convert format

  const TargetFormats: set<string> := {"JPEG", "PNG", "WEBP", "BMP", "TIFF"}

  /** The extension each target format is saved under. */
  const FormatExtensions: map<string, string> :=
    map["JPEG" := ".jpg", "PNG" := ".png", "WEBP" := ".webp", "BMP" := ".bmp", "TIFF" := ".tiff"]

  lemma FormatExtensionShape(format: string)
    requires format in TargetFormats
    ensures format in FormatExtensions
    ensures var e := FormatExtensions[format]; |e| >= 2 && e[0] == '.' && '.' !in e[1..] && '/' !in e
  {
  }

  /** The converted file's path: the generated path with the format's extension. */
  function ConvertedOutputPath(inputPath: string, id: Uuid, format: string): (p: string)
    requires format in TargetFormats
    ensures Parent(p) == OutputFolder + "/" && Suffix(p) == FormatExtensions[format] && p != ""
  {
    var generated := GenerateOutputPath(inputPath, "converted", "", id);
    NoSeparatorInSuffixes();
    OutputPathNamed(inputPath, "converted", "", id);
    FormatExtensionShape(format);
    SuffixOfWithSuffix(generated, FormatExtensions[format]);
    WithSuffix(generated, FormatExtensions[format])
  }

  datatype ConvertCall = ConvertCall(inputPath: string, outputPath: string, targetFormat: string, quality: int)

  /** The `target_format` field, upper-cased: required and one of the five formats. */
  function TargetFormat(targetField: Option<string>): (r: Result<string, Response>)
    ensures r.Ok? <==> Upper(targetField.GetOr("")) in TargetFormats
    ensures r.Ok? ==> r.value == Upper(targetField.GetOr("")) && Upper(r.value) == r.value
    ensures r.Err? ==> r.error.status == 400
  {
    UpperIdempotent(targetField.GetOr(""));
    var target := Upper(targetField.GetOr(""));
    if target == "" then Err(BadRequest("Target format is required"))
    else if target !in TargetFormats then Err(Response(400, ErrorListing("Unsupported format. Allowed: ", TargetFormats)))
    else Ok(target)
  }

  /** The `quality` field: 95 when absent, and an integer in 1..100. */
  function Quality(qualityField: Option<string>): (r: Result<int, Response>)
    ensures r.Ok? <==> FormInt(qualityField, 95).Some? && 1 <= FormInt(qualityField, 95).value <= 100
    ensures r.Ok? ==> r.value == FormInt(qualityField, 95).value
    ensures qualityField.None? ==> r == Ok(95)
    ensures r.Err? ==> r.error.status == 400
  {
    if FormInt(qualityField, 95).None? then Err(BadRequest("Invalid quality value"))
    else
      var quality := FormInt(qualityField, 95).value;
      if !(1 <= quality <= 100) then Err(BadRequest("Quality must be between 1 and 100"))
      else Ok(quality)
  }

  /** `convert_format`: a valid upload is converted exactly when the target format and the
      quality pass, and the output then carries the format's extension. */
  function ConvertFormatRoute(file: Option<string>, targetField: Option<string>, qualityField: Option<string>,
                              secure: string -> string, uuid: nat -> Uuid): (r: Result<ConvertCall, Response>)
    ensures r.Ok? <==> ImageFileGuard(file).None? && TargetFormat(targetField).Ok? && Quality(qualityField).Ok?
    ensures r.Ok? ==> r.value.targetFormat == TargetFormat(targetField).value && r.value.targetFormat in TargetFormats
    ensures r.Ok? ==> r.value.quality == Quality(qualityField).value
    ensures r.Ok? ==> Suffix(r.value.outputPath) == FormatExtensions[r.value.targetFormat] && r.value.outputPath != ""
    ensures r.Ok? ==> Upper(r.value.targetFormat) == r.value.targetFormat
    ensures r.Err? ==> r.error.status == 400
    ensures ImageFileGuard(file).Some? ==> r == Err(ImageFileGuard(file).value)
    ensures ImageFileGuard(file).None? && TargetFormat(targetField).Err? ==> r == Err(TargetFormat(targetField).error)
    ensures ImageFileGuard(file).None? && TargetFormat(targetField).Ok? && Quality(qualityField).Err? ==>
              r == Err(Quality(qualityField).error)
  {
    if ImageFileGuard(file).Some? then Err(ImageFileGuard(file).value)
    else
      var target :- TargetFormat(targetField);
      var quality :- Quality(qualityField);
      var input := SavedUploadPath("convert_input", uuid(0), secure, file.value);
      Ok(ConvertCall(input, ConvertedOutputPath(input, uuid(1), target), target, quality))
  }

  /** For a call the route makes (its format upper-cased, its output path set) the converter succeeds on any opened image, records the quality for
      JPEG and WEBP only, and flattens only a JPEG target from an RGBA or LA image. */
  lemma ConvertFormatEndToEnd(c: ConvertCall, mode: string, urlFor: string -> string)
    requires Upper(c.targetFormat) == c.targetFormat && c.outputPath != ""
    ensures var run := ConvertFormat(c.inputPath, StoredPath(Some(c.outputPath)), Ok(mode), c.targetFormat, c.quality, urlFor);
            run.result.success && run.saved.Some? &&
            (run.saved.value.quality == Some(c.quality) <==> c.targetFormat in LossyFormats) &&
            (run.saved.value.quality.None? <==> c.targetFormat !in LossyFormats) &&
            (run.saved.value.preparation.OntoWhite? <==> c.targetFormat == "JPEG" && mode in AlphaModes)
  {
    ConvertFormatRules(c.inputPath, c.outputPath, mode, c.targetFormat, c.quality, urlFor);
  }
}
