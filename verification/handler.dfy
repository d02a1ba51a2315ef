/**
 * The per-request decision logic shared by both services, as functions of the request,
 * of the opaque library calls and of the set of paths present in the upload folder.
 * The two services differ only in their `Config`: the folder, and whether removing the
 * saved file survives an exception raised by the OCR engine.
 */
module Handler {
  import opened Wrappers
  import opened FileNames
  import opened Aggregation

  type Bytes = seq<bv8>

  /** A picture decoded by `Image.open`, kept as the bytes it was opened from. */
  datatype Image = Image(encoded: Bytes)

  /** The multipart part `request.files['image']`. */
  datatype Upload = Upload(filename: string, content: Bytes)

  /** A value produced by `request.get_json()`. */
  datatype Json =
    | JNull
    | JBool(b: bool)
    | JInt(i: int)
    | JFloat(f: real)
    | JString(s: string)
    | JArray(items: seq<Json>)
    | JObject(fields: map<string, Json>)

  /**
   * The library calls the handlers make, whose code is not part of this model:
   * `secure_filename`, the message of the exception it raises on a non-string,
   * `base64.b64decode`, `Image.open`, `FileStorage.save` and `Image.save`
   * (the last two give the message of the exception they raise, if any).
   */
  datatype Library = Library(
    secureFilename: string -> string,
    nonStringFilename: Json -> string,
    b64decode: Json -> Result<Bytes>,
    openImage: Bytes -> Result<Image>,
    saveUpload: (Upload, string) -> Option<string>,
    saveImage: (Image, string) -> Option<string>)

  /** What a failure envelope carries besides `success: false` and `error`. */
  datatype Extra =
    | NoExtra
    | FormHint(requiredFormat: string)
    | JsonHint(image: string, filename: string)
    | AllowedList(allowedExtensions: set<string>)
    | Details(details: string)

  datatype Body =
    | Recognized(text: string, confidence: real)
    | Failed(error: string, extra: Extra)
    | Status(status: string, message: string)
    | Directory(status: string, message: string, version: string, endpoints: map<string, string>)

  datatype Response = Response(status: int, body: Body) {
    /** The envelope's `success` field, for the two OCR endpoints. */
    predicate Succeeded() {
      body.Recognized?
    }
  }

  /** What `finally` protects: the removal of the saved file on every exit, or only on success. */
  datatype Cleanup = Finally | SuccessOnly

  datatype Config = Config(folder: string, cleanup: Cleanup)

  /** A request's response, the paths present in the folder afterwards, and the paths given to OCR. */
  datatype Outcome = Outcome(response: Response, files: set<string>, ocrCalls: seq<string>)

  /** The answer when the form has no `image` part. */
  function NoImageFile(): (r: Response)
    ensures r.status == 400 && r.body.Failed? && r.body.error == "No image file provided"
  {
    Response(400, Failed("No image file provided", FormHint("Send image as form-data with key \"image\"")))
  }

  /** The answer when the `image` part has an empty filename. */
  function NoSelectedFile(): (r: Response)
    ensures r.status == 400 && r.body.Failed? && r.body.error == "No selected file"
  {
    Response(400, Failed("No selected file", NoExtra))
  }

  /** The answer when the filename's extension is not allowed; it lists the allowed ones. */
  function InvalidFileType(): (r: Response)
    ensures r.status == 400 && r.body.Failed? && r.body.error == "Invalid file type"
    ensures r.body.Failed? && r.body.extra == AllowedList(AllowedExtensions)
  {
    Response(400, Failed("Invalid file type", AllowedList(AllowedExtensions)))
  }

  /** The answer when the JSON body is empty or has no `image` key. */
  function NoImageData(): (r: Response)
    ensures r.status == 400 && r.body.Failed? && r.body.error == "No image data provided"
  {
    Response(400, Failed("No image data provided", JsonHint("base64_encoded_image_string", "optional_filename.jpg")))
  }

  /** The inner `except Exception as e` of the base64 endpoint, carrying `str(e)`. */
  function InvalidBase64(details: string): (r: Response)
    ensures r.status == 400 && r.body.Failed? && r.body.error == "Invalid base64 image data"
    ensures r.body.Failed? && r.body.extra == Details(details)
  {
    Response(400, Failed("Invalid base64 image data", Details(details)))
  }

  /** The outer `except Exception as e` of both POST handlers, carrying `str(e)`. */
  function ServerError(message: string): (r: Response)
    ensures r.status == 500 && r.body.Failed? && r.body.error == message
  {
    Response(500, Failed(message, NoExtra))
  }

  /** The success envelope built from the engine's lines. */
  function RecognizedLines(lines: seq<Line>): (r: Response)
    ensures r.status == 200 && r.Succeeded()
    ensures lines == [] ==> r.body == Recognized("", 0.0)
  {
    Response(200, Recognized(OcrText(lines), MeanConfidence(lines)))
  }

  /** `/health`, the same in both services. */
  function HealthCheck(): (r: Response)
    ensures r.status == 200 && r.body.Status? && r.body.status == "healthy"
    ensures r.body.message == "OCR service is running"
    ensures !r.Succeeded()
  {
    Response(200, Status("healthy", "OCR service is running"))
  }

  /** `/` of the serverless service: the health fields plus the route directory. */
  function Home(): (r: Response)
    ensures r.status == 200 && r.body.Directory? && r.body.status == "healthy"
    ensures r.body.message == "OCR service is running" && r.body.version == "1.0"
    ensures r.body.endpoints.Keys == {"health_check", "file_upload", "base64"}
    ensures "health_check" in r.body.endpoints && r.body.endpoints["health_check"] == "/health"
    ensures "file_upload" in r.body.endpoints && r.body.endpoints["file_upload"] == "/api/v1/ocr/file"
    ensures "base64" in r.body.endpoints && r.body.endpoints["base64"] == "/api/v1/ocr/base64"
  {
    Response(200, Directory("healthy", "OCR service is running", "1.0",
      map["health_check" := "/health", "file_upload" := "/api/v1/ocr/file", "base64" := "/api/v1/ocr/base64"]))
  }

  /** `os.path.join(folder, name)`. */
  function PathJoin(folder: string, name: string): (r: string)
    ensures |name| <= |r| && r[|r| - |name|..] == name
    ensures (|name| == 0 || name[0] != '/') ==> |folder| <= |r| && r[..|folder|] == folder
    ensures |name| > 0 && name[0] == '/' ==> r == name
  {
    if |name| > 0 && name[0] == '/' then name
    else if folder == "" || folder[|folder| - 1] == '/' then folder + name
    else folder + "/" + name
  }

  /** `bool(file)` for a `FileStorage`: its filename is not empty. */
  predicate UploadIsTruthy(f: Upload): (r: bool)
    ensures r <==> |f.filename| > 0
  {
    f.filename != ""
  }

  /** Python truthiness of a JSON value (`not data`). */
  predicate Truthy(data: Json): (r: bool)
    ensures data.JNull? ==> !r
    ensures data.JObject? && "image" in data.fields ==> r
    ensures data.JString? ==> (r <==> |data.s| > 0)
    ensures data.JObject? ==> (r <==> data.fields != map[])
    ensures data.JArray? ==> (r <==> data.items != [])
  {
    match data
    case JNull => false
    case JBool(b) => b
    case JInt(i) => i != 0
    case JFloat(f) => f != 0.0
    case JString(s) => s != ""
    case JArray(items) => items != []
    case JObject(fields) => fields != map[]
  }

  function TypeName(data: Json): string {
    match data
    case JNull => "NoneType"
    case JBool(_) => "bool"
    case JInt(_) => "int"
    case JFloat(_) => "float"
    case JString(_) => "str"
    case JArray(_) => "list"
    case JObject(_) => "dict"
  }

  /** Python's `p in s` on two strings. */
  predicate HasSubstring(s: string, p: string) {
    |p| <= |s| && (s[..|p|] == p || (|s| > 0 && HasSubstring(s[1..], p)))
  }

  /** `key in data`, which raises on values that are not containers. */
  function ContainsKey(data: Json, key: string): (r: Result<bool>)
    ensures r.Err? <==> !(data.JObject? || data.JArray? || data.JString?)
    ensures data.JObject? ==> r == Ok(key in data.fields)
  {
    match data
    case JObject(fields) => Ok(key in fields)
    case JArray(items) => Ok(JString(key) in items)
    case JString(s) => Ok(HasSubstring(s, key))
    case _ => Err("argument of type '" + TypeName(data) + "' is not iterable")
  }

  /** `data[key]`. */
  function Lookup(data: Json, key: string): (r: Result<Json>)
    ensures r.Ok? <==> data.JObject? && key in data.fields
    ensures r.Ok? ==> r.value == data.fields[key]
  {
    match data
    case JObject(fields) => if key in fields then Ok(fields[key]) else Err("'" + key + "'")
    case JArray(_) => Err("list indices must be integers or slices, not str")
    case JString(_) => Err("string indices must be integers, not 'str'")
    case _ => Err("'" + TypeName(data) + "' object is not subscriptable")
  }

  /** The body's `filename` field, defaulting to "temp.png" when absent. */
  function FilenameArg(data: Json): (r: Result<Json>)
    ensures r.Ok? <==> data.JObject?
    ensures data.JObject? && "filename" in data.fields ==> r == Ok(data.fields["filename"])
    ensures data.JObject? && "filename" !in data.fields ==> r == Ok(JString("temp.png"))
  {
    match data
    case JObject(fields) => Ok(if "filename" in fields then fields["filename"] else JString("temp.png"))
    case _ => Err("'" + TypeName(data) + "' object has no attribute 'get'")
  }

  /** Sanitising a JSON value as a filename; only a string can be sanitised. */
  function SecureFilenameOf(lib: Library, value: Json): (r: Result<string>)
    ensures r.Ok? <==> value.JString?
    ensures value.JString? ==> r.value == lib.secureFilename(value.s)
    ensures !value.JString? ==> r.message == lib.nonStringFilename(value)
  {
    match value
    case JString(s) => Ok(lib.secureFilename(s))
    case _ => Err(lib.nonStringFilename(value))
  }

  /** The folder's contents after the OCR engine raised on the just-saved `path`. */
  function AfterOcrFailure(cfg: Config, stored: set<string>, path: string): (r: set<string>)
    ensures path in r <==> cfg.cleanup.SuccessOnly?
    ensures r - {path} == stored - {path}
  {
    if cfg.cleanup == Finally then stored + {path} - {path} else stored + {path}
  }

  /** The path an accepted upload named `filename` is saved under. */
  function UploadPath(cfg: Config, lib: Library, filename: string): string {
    PathJoin(cfg.folder, lib.secureFilename(filename))
  }

  /**
   * The folder after a request: untouched when the engine was not reached; otherwise the
   * saved path is gone if the engine returned normally or removal sits in `finally`, and
   * is left behind if the engine raised and removal only follows a normal return.
   */
  predicate FolderAfter(cfg: Config, readtext: string -> Result<seq<Line>>, stored: set<string>, o: Outcome) {
    if o.ocrCalls == [] then o.files == stored
    else
      var path := o.ocrCalls[0];
      o.files == (if readtext(path).Ok? || cfg.cleanup == Finally then stored - {path} else stored + {path})
  }

  /** Success is reported exactly when the engine was reached and returned, with its lines aggregated. */
  predicate SucceedsOnRecognition(readtext: string -> Result<seq<Line>>, o: Outcome) {
    && (o.response.Succeeded() <==> o.ocrCalls != [] && readtext(o.ocrCalls[0]).Ok?)
    && (o.response.Succeeded() ==> o.response == RecognizedLines(readtext(o.ocrCalls[0]).value))
  }

  /** Which `except` clause catches an exception raised after validation. */
  datatype Handling =
    | ToServerError    // the outer `except Exception` (500)
    | ToInvalidBase64  // the inner `except Exception` of the base64 endpoint (400)

  function Raised(h: Handling, message: string): (r: Response)
    ensures h == ToServerError ==> r.status == 500 && r.body.Failed? && r.body.error == message
    ensures h == ToInvalidBase64 ==> r.status == 400 && r.body == Failed("Invalid base64 image data", Details(message))
  {
    match h
    case ToServerError => ServerError(message)
    case ToInvalidBase64 => InvalidBase64(message)
  }

  /**
   * Writing the image to `path` (whose failure, if any, is `saveError`), running the
   * engine on it and removing it afterwards, as `cfg.cleanup` orders.
   */
  function SaveAndRecognize(cfg: Config, readtext: string -> Result<seq<Line>>, h: Handling,
                            path: string, saveError: Option<string>, stored: set<string>): (o: Outcome)
    ensures o.ocrCalls == (if saveError.None? then [path] else [])
    ensures o.response.Succeeded() <==> o.response.status == 200
    ensures !o.response.Succeeded() ==> exists e :: o.response == Raised(h, e)
    ensures saveError.Some? ==> o.response == Raised(h, saveError.value)
    ensures saveError.None? && readtext(path).Err? ==> o.response == Raised(h, readtext(path).message)
    ensures SucceedsOnRecognition(readtext, o)
    ensures FolderAfter(cfg, readtext, stored, o)
  {
    match saveError
    case Some(e) => Outcome(Raised(h, e), stored, [])
    case None =>
      match readtext(path)
      case Ok(lines) => Outcome(RecognizedLines(lines), stored + {path} - {path}, [path])
      case Err(e) => Outcome(Raised(h, e), AfterOcrFailure(cfg, stored, path), [path])
  }

  /** POST /api/v1/ocr/file. */
  function FileEndpoint(cfg: Config, lib: Library, readtext: string -> Result<seq<Line>>,
                        files: map<string, Upload>, stored: set<string>): (o: Outcome)
    ensures |o.ocrCalls| <= 1
    ensures o.response.status in {200, 400, 500}
    ensures o.response.Succeeded() <==> o.response.status == 200
    ensures SucceedsOnRecognition(readtext, o)
    ensures FolderAfter(cfg, readtext, stored, o)
  {
    if "image" !in files then Outcome(NoImageFile(), stored, [])
    else
      var file := files["image"];
      if file.filename == "" then Outcome(NoSelectedFile(), stored, [])
      else if UploadIsTruthy(file) && AllowedFile(file.filename) then
        var path := UploadPath(cfg, lib, file.filename);
        SaveAndRecognize(cfg, readtext, ToServerError, path, lib.saveUpload(file, path), stored)
      else Outcome(InvalidFileType(), stored, [])
  }

  /** Decoding the body's `image` field from base64 and opening the bytes as a picture. */
  function DecodeImage(lib: Library, data: Json): (r: Result<Image>)
    ensures r.Ok? ==> data.JObject? && "image" in data.fields && lib.b64decode(data.fields["image"]).Ok?
    ensures data.JObject? && "image" in data.fields && lib.b64decode(data.fields["image"]).Ok? ==>
      r == lib.openImage(lib.b64decode(data.fields["image"]).value)
    ensures data.JObject? && "image" in data.fields && lib.b64decode(data.fields["image"]).Err? ==>
      r == Err(lib.b64decode(data.fields["image"]).message)
  {
    match Lookup(data, "image")
    case Err(e) => Err(e)
    case Ok(encoded) =>
      match lib.b64decode(encoded)
      case Err(e) => Err(e)
      case Ok(bytes) => lib.openImage(bytes)
  }

  /** The folder joined with the sanitised `filename` field (default "temp.png"). */
  function TargetPath(cfg: Config, lib: Library, data: Json): (r: Result<string>)
    ensures data.JObject? && "filename" !in data.fields ==>
      r == Ok(PathJoin(cfg.folder, lib.secureFilename("temp.png")))
  {
    match FilenameArg(data)
    case Err(e) => Err(e)
    case Ok(arg) =>
      match SecureFilenameOf(lib, arg)
      case Err(e) => Err(e)
      case Ok(filename) => Ok(PathJoin(cfg.folder, filename))
  }

  /** The inner `try` of POST /api/v1/ocr/base64, entered once `'image' in data` held. */
  function DecodeAndRecognize(cfg: Config, lib: Library, readtext: string -> Result<seq<Line>>,
                              data: Json, stored: set<string>): (o: Outcome)
    ensures |o.ocrCalls| <= 1
    ensures o.response.Succeeded() <==> o.response.status == 200
    ensures !o.response.Succeeded() ==> exists e :: o.response == InvalidBase64(e)
    ensures SucceedsOnRecognition(readtext, o)
    ensures FolderAfter(cfg, readtext, stored, o)
  {
    match DecodeImage(lib, data)
    case Err(e) => Outcome(InvalidBase64(e), stored, [])
    case Ok(image) =>
      match TargetPath(cfg, lib, data)
      case Err(e) => Outcome(InvalidBase64(e), stored, [])
      case Ok(path) => SaveAndRecognize(cfg, readtext, ToInvalidBase64, path, lib.saveImage(image, path), stored)
  }

  /** POST /api/v1/ocr/base64; `body` is `request.get_json()`, or the message of what it raised. */
  function Base64Endpoint(cfg: Config, lib: Library, readtext: string -> Result<seq<Line>>,
                          body: Result<Json>, stored: set<string>): (o: Outcome)
    ensures |o.ocrCalls| <= 1
    ensures o.response.status in {200, 400, 500}
    ensures o.response.Succeeded() <==> o.response.status == 200
    ensures SucceedsOnRecognition(readtext, o)
    ensures FolderAfter(cfg, readtext, stored, o)
  {
    match body
    case Err(e) => Outcome(ServerError(e), stored, [])
    case Ok(data) =>
      if !Truthy(data) then Outcome(NoImageData(), stored, [])
      else
        match ContainsKey(data, "image")
        case Err(e) => Outcome(ServerError(e), stored, [])
        case Ok(present) =>
          if !present then Outcome(NoImageData(), stored, [])
          else DecodeAndRecognize(cfg, lib, readtext, data, stored)
  }

  /** The set of paths handed to the OCR engine. */
  function Paths(calls: seq<string>): set<string> {
    set p | p in calls
  }

  // ---------------------------------------------------------------------------
  // The file endpoint

  /**
   * The validation ladder: a missing part, an empty filename and a disallowed extension
   * each give their 400 envelope, in that order, with nothing saved and no OCR call.
   */
  lemma FileRejections(cfg: Config, lib: Library, readtext: string -> Result<seq<Line>>,
                       files: map<string, Upload>, stored: set<string>)
    ensures var o := FileEndpoint(cfg, lib, readtext, files, stored);
      && ("image" !in files ==> o == Outcome(NoImageFile(), stored, []))
      && ("image" in files && files["image"].filename == "" ==> o == Outcome(NoSelectedFile(), stored, []))
      && ("image" in files && files["image"].filename != "" && !AllowedFile(files["image"].filename) ==>
            o == Outcome(InvalidFileType(), stored, []))
  {
  }

  /**
   * The engine is reached only for an allowed, non-empty filename that was saved, and
   * exactly on the path `join(folder, secure_filename(filename))`; then a normal return
   * gives 200 with the aggregated text and confidence, and an exception gives 500 with
   * its message. A save that raises gives 500 with the save's message.
   */
  lemma FileRecognition(cfg: Config, lib: Library, readtext: string -> Result<seq<Line>>,
                        files: map<string, Upload>, stored: set<string>)
    ensures var o := FileEndpoint(cfg, lib, readtext, files, stored);
      o.ocrCalls != [] <==>
        ("image" in files && files["image"].filename != "" && AllowedFile(files["image"].filename) &&
         lib.saveUpload(files["image"], UploadPath(cfg, lib, files["image"].filename)).None?)
    ensures var o := FileEndpoint(cfg, lib, readtext, files, stored);
      o.ocrCalls != [] ==>
        var path := UploadPath(cfg, lib, files["image"].filename);
        && o.ocrCalls == [path]
        && o.response == match readtext(path)
             case Ok(lines) => RecognizedLines(lines)
             case Err(e) => ServerError(e)
    ensures var o := FileEndpoint(cfg, lib, readtext, files, stored);
      "image" in files && files["image"].filename != "" && AllowedFile(files["image"].filename) &&
      lib.saveUpload(files["image"], UploadPath(cfg, lib, files["image"].filename)).Some? ==>
        o == Outcome(ServerError(lib.saveUpload(files["image"], UploadPath(cfg, lib, files["image"].filename)).value), stored, [])
  {
  }

  // ---------------------------------------------------------------------------
  // The base64 endpoint

  /**
   * A body that is not JSON gives 500, and so does a truthy body on which `'image' in data`
   * raises (a number or a boolean), with the raised message; a null or empty body, or one
   * without `image`, gives 400 "No image data provided"; in each case whatever the library
   * would have decoded is irrelevant, nothing is saved and the engine is not called.
   */
  lemma Base64Rejections(cfg: Config, lib: Library, readtext: string -> Result<seq<Line>>,
                         body: Result<Json>, stored: set<string>)
    ensures var o := Base64Endpoint(cfg, lib, readtext, body, stored);
      && (body.Err? ==> o == Outcome(ServerError(body.message), stored, []))
      && (body.Ok? && (!Truthy(body.value) || ContainsKey(body.value, "image") == Ok(false)) ==>
            o == Outcome(NoImageData(), stored, []))
      && (body.Ok? && Truthy(body.value) && ContainsKey(body.value, "image").Err? ==>
            o == Outcome(ServerError(ContainsKey(body.value, "image").message), stored, []))
  {
  }

  /** A null body, and an object without `image`, are answered "No image data provided". */
  lemma Base64MissingImage(cfg: Config, lib: Library, readtext: string -> Result<seq<Line>>,
                           fields: map<string, Json>, stored: set<string>)
    requires "image" !in fields
    ensures Base64Endpoint(cfg, lib, readtext, Ok(JNull), stored) == Outcome(NoImageData(), stored, [])
    ensures Base64Endpoint(cfg, lib, readtext, Ok(JObject(fields)), stored) == Outcome(NoImageData(), stored, [])
  {
    Base64Rejections(cfg, lib, readtext, Ok(JNull), stored);
    assert ContainsKey(JObject(fields), "image") == Ok(false);
    Base64Rejections(cfg, lib, readtext, Ok(JObject(fields)), stored);
  }

  /**
   * Once `image` is present, every failure (lookup, decode, image parse, filename, save
   * or OCR) gives 400 "Invalid base64 image data" with the exception's text as details,
   * never 500.
   */
  lemma Base64FailuresAre400(cfg: Config, lib: Library, readtext: string -> Result<seq<Line>>,
                             body: Result<Json>, stored: set<string>)
    requires body.Ok? && Truthy(body.value) && ContainsKey(body.value, "image") == Ok(true)
    ensures var o := Base64Endpoint(cfg, lib, readtext, body, stored);
      o.response.status != 500 &&
      (!o.response.Succeeded() ==> o.response.status == 400 && o.response.body.error == "Invalid base64 image data")
  {
  }

  /**
   * Without a `filename` field the image is saved, and handed to the engine, under
   * `join(folder, secure_filename("temp.png"))`.
   */
  lemma Base64DefaultFilename(cfg: Config, lib: Library, readtext: string -> Result<seq<Line>>,
                              fields: map<string, Json>, stored: set<string>)
    requires "filename" !in fields
    ensures var o := Base64Endpoint(cfg, lib, readtext, Ok(JObject(fields)), stored);
      o.ocrCalls != [] ==> o.ocrCalls == [PathJoin(cfg.folder, lib.secureFilename("temp.png"))]
  {
    var data := JObject(fields);
    var path := PathJoin(cfg.folder, lib.secureFilename("temp.png"));
    assert TargetPath(cfg, lib, data) == Ok(path);
    if Truthy(data) && ContainsKey(data, "image") == Ok(true) {
      assert Base64Endpoint(cfg, lib, readtext, Ok(data), stored) == DecodeAndRecognize(cfg, lib, readtext, data, stored);
      match DecodeImage(lib, data)
      case Err(_) =>
      case Ok(image) =>
        assert DecodeAndRecognize(cfg, lib, readtext, data, stored)
          == SaveAndRecognize(cfg, readtext, ToInvalidBase64, path, lib.saveImage(image, path), stored);
    }
  }

  /** The base64 request gets past validation: it is JSON, truthy, and `'image' in data` holds. */
  predicate PastValidation(body: Result<Json>) {
    body.Ok? && Truthy(body.value) && ContainsKey(body.value, "image") == Ok(true)
  }

  /**
   * The engine is reached exactly when the request gets past validation, its image decodes
   * and parses, the filename sanitises and the image saves; it is reached once, on
   * `join(folder, secure_filename(filename))`, and its normal return gives 200 with the
   * aggregated text and confidence, its exception 400 with the message as details.
   */
  lemma Base64Recognition(cfg: Config, lib: Library, readtext: string -> Result<seq<Line>>,
                          body: Result<Json>, stored: set<string>)
    ensures var o := Base64Endpoint(cfg, lib, readtext, body, stored);
      o.ocrCalls != [] <==>
        (PastValidation(body) && DecodeImage(lib, body.value).Ok? && TargetPath(cfg, lib, body.value).Ok? &&
         lib.saveImage(DecodeImage(lib, body.value).value, TargetPath(cfg, lib, body.value).value).None?)
    ensures var o := Base64Endpoint(cfg, lib, readtext, body, stored);
      o.ocrCalls != [] ==>
        var path := TargetPath(cfg, lib, body.value).value;
        && o.ocrCalls == [path]
        && o.response == match readtext(path)
             case Ok(lines) => RecognizedLines(lines)
             case Err(e) => InvalidBase64(e)
  {
    if PastValidation(body) {
      var data := body.value;
      assert Base64Endpoint(cfg, lib, readtext, body, stored) == DecodeAndRecognize(cfg, lib, readtext, data, stored);
      if DecodeImage(lib, data).Ok? && TargetPath(cfg, lib, data).Ok? {
        var image, path := DecodeImage(lib, data).value, TargetPath(cfg, lib, data).value;
        assert DecodeAndRecognize(cfg, lib, readtext, data, stored)
          == SaveAndRecognize(cfg, readtext, ToInvalidBase64, path, lib.saveImage(image, path), stored);
      }
    }
  }

  /**
   * Past validation, each step of the inner `try` that raises (reading `image`, decoding,
   * opening the picture, sanitising the filename, saving) answers 400 "Invalid base64
   * image data" with that step's message as details, saves nothing and skips the engine.
   */
  lemma Base64StepFailures(cfg: Config, lib: Library, readtext: string -> Result<seq<Line>>,
                           body: Result<Json>, stored: set<string>)
    requires PastValidation(body)
    ensures var data, o := body.value, Base64Endpoint(cfg, lib, readtext, body, stored);
      && (Lookup(data, "image").Err? ==>
            o == Outcome(InvalidBase64(Lookup(data, "image").message), stored, []))
      && (Lookup(data, "image").Ok? && lib.b64decode(Lookup(data, "image").value).Err? ==>
            o == Outcome(InvalidBase64(lib.b64decode(Lookup(data, "image").value).message), stored, []))
      && (Lookup(data, "image").Ok? && lib.b64decode(Lookup(data, "image").value).Ok? &&
          lib.openImage(lib.b64decode(Lookup(data, "image").value).value).Err? ==>
            o == Outcome(InvalidBase64(lib.openImage(lib.b64decode(Lookup(data, "image").value).value).message), stored, []))
      && (DecodeImage(lib, data).Ok? && TargetPath(cfg, lib, data).Err? ==>
            o == Outcome(InvalidBase64(TargetPath(cfg, lib, data).message), stored, []))
      && (DecodeImage(lib, data).Ok? && TargetPath(cfg, lib, data).Ok? &&
          lib.saveImage(DecodeImage(lib, data).value, TargetPath(cfg, lib, data).value).Some? ==>
            o == Outcome(InvalidBase64(lib.saveImage(DecodeImage(lib, data).value, TargetPath(cfg, lib, data).value).value), stored, []))
  {
    var data := body.value;
    assert Base64Endpoint(cfg, lib, readtext, body, stored) == DecodeAndRecognize(cfg, lib, readtext, data, stored);
  }

  /** A body that names its file is saved, and handed to the engine, under that sanitised name. */
  lemma Base64NamedFile(cfg: Config, lib: Library, readtext: string -> Result<seq<Line>>,
                        fields: map<string, Json>, name: string, stored: set<string>)
    requires "filename" in fields && fields["filename"] == JString(name)
    ensures var o := Base64Endpoint(cfg, lib, readtext, Ok(JObject(fields)), stored);
      o.ocrCalls != [] ==> o.ocrCalls == [PathJoin(cfg.folder, lib.secureFilename(name))]
  {
    assert TargetPath(cfg, lib, JObject(fields)) == Ok(PathJoin(cfg.folder, lib.secureFilename(name)));
    Base64Recognition(cfg, lib, readtext, Ok(JObject(fields)), stored);
  }

  // ---------------------------------------------------------------------------
  // The temporary file

  /**
   * With `finally`, every path handed to the engine is gone from the folder on return,
   * whether the engine returned or raised, and nothing else changed; a request that
   * never reached the engine left the folder as it was.
   */
  lemma FinallyReleasesSavedFile(cfg: Config, lib: Library, readtext: string -> Result<seq<Line>>,
                                 files: map<string, Upload>, body: Result<Json>, stored: set<string>)
    requires cfg.cleanup == Finally
    ensures var o := FileEndpoint(cfg, lib, readtext, files, stored);
      o.files == stored - Paths(o.ocrCalls)
    ensures var o := Base64Endpoint(cfg, lib, readtext, body, stored);
      o.files == stored - Paths(o.ocrCalls)
  {
    FolderAfterFinally(cfg, readtext, stored, FileEndpoint(cfg, lib, readtext, files, stored));
    FolderAfterFinally(cfg, readtext, stored, Base64Endpoint(cfg, lib, readtext, body, stored));
  }

  lemma FolderAfterFinally(cfg: Config, readtext: string -> Result<seq<Line>>, stored: set<string>, o: Outcome)
    requires cfg.cleanup == Finally && |o.ocrCalls| <= 1 && FolderAfter(cfg, readtext, stored, o)
    ensures o.files == stored - Paths(o.ocrCalls)
  {
    if o.ocrCalls == [] {
      assert Paths(o.ocrCalls) == {};
    } else {
      assert o.ocrCalls == [o.ocrCalls[0]];
      assert Paths(o.ocrCalls) == {o.ocrCalls[0]};
    }
  }

  /**
   * Without `finally`, the saved file is removed only when the engine returns normally:
   * an exception raised by the engine leaves its path in the folder.
   */
  lemma SuccessOnlyLeavesFileOnOcrFailure(cfg: Config, lib: Library, readtext: string -> Result<seq<Line>>,
                                          files: map<string, Upload>, body: Result<Json>, stored: set<string>)
    requires cfg.cleanup == SuccessOnly
    ensures var o := FileEndpoint(cfg, lib, readtext, files, stored);
      o.ocrCalls != [] ==>
        o.files == (if readtext(o.ocrCalls[0]).Ok? then stored - {o.ocrCalls[0]} else stored + {o.ocrCalls[0]})
    ensures var o := Base64Endpoint(cfg, lib, readtext, body, stored);
      o.ocrCalls != [] ==>
        o.files == (if readtext(o.ocrCalls[0]).Ok? then stored - {o.ocrCalls[0]} else stored + {o.ocrCalls[0]})
    ensures var o := FileEndpoint(cfg, lib, readtext, files, stored);
      o.ocrCalls == [] ==> o.files == stored
    ensures var o := Base64Endpoint(cfg, lib, readtext, body, stored);
      o.ocrCalls == [] ==> o.files == stored
  {
  }

  /** Two outcomes that answer and call the engine alike, and keep different files only after the engine raised. */
  predicate AgreeExceptFolder(readtext: string -> Result<seq<Line>>, a: Outcome, b: Outcome) {
    && a.response == b.response
    && a.ocrCalls == b.ocrCalls
    && (a.files != b.files ==> a.ocrCalls != [] && readtext(a.ocrCalls[0]).Err?)
  }

  lemma SaveAndRecognizeCleanup(folder: string, readtext: string -> Result<seq<Line>>, h: Handling,
                                path: string, saveError: Option<string>, stored: set<string>)
    ensures AgreeExceptFolder(readtext,
      SaveAndRecognize(Config(folder, Finally), readtext, h, path, saveError, stored),
      SaveAndRecognize(Config(folder, SuccessOnly), readtext, h, path, saveError, stored))
  {
  }

  lemma DecodeAndRecognizeCleanup(folder: string, lib: Library, readtext: string -> Result<seq<Line>>,
                                  data: Json, stored: set<string>)
    ensures AgreeExceptFolder(readtext,
      DecodeAndRecognize(Config(folder, Finally), lib, readtext, data, stored),
      DecodeAndRecognize(Config(folder, SuccessOnly), lib, readtext, data, stored))
  {
    var fin, loc := Config(folder, Finally), Config(folder, SuccessOnly);
    assert TargetPath(fin, lib, data) == TargetPath(loc, lib, data);
    if DecodeImage(lib, data).Ok? && TargetPath(fin, lib, data).Ok? {
      var path := TargetPath(fin, lib, data).value;
      SaveAndRecognizeCleanup(folder, readtext, ToInvalidBase64, path,
        lib.saveImage(DecodeImage(lib, data).value, path), stored);
    }
  }

  /**
   * The two cleanup disciplines answer every request identically and call the engine
   * identically; they differ in the folder only after the engine raised.
   */
  lemma CleanupAffectsOnlyStorage(folder: string, lib: Library, readtext: string -> Result<seq<Line>>,
                                  files: map<string, Upload>, body: Result<Json>, stored: set<string>)
    ensures AgreeExceptFolder(readtext,
      FileEndpoint(Config(folder, Finally), lib, readtext, files, stored),
      FileEndpoint(Config(folder, SuccessOnly), lib, readtext, files, stored))
    ensures AgreeExceptFolder(readtext,
      Base64Endpoint(Config(folder, Finally), lib, readtext, body, stored),
      Base64Endpoint(Config(folder, SuccessOnly), lib, readtext, body, stored))
  {
    FileCleanup(folder, lib, readtext, files, stored);
    Base64Cleanup(folder, lib, readtext, body, stored);
  }

  lemma FileCleanup(folder: string, lib: Library, readtext: string -> Result<seq<Line>>,
                    files: map<string, Upload>, stored: set<string>)
    ensures AgreeExceptFolder(readtext,
      FileEndpoint(Config(folder, Finally), lib, readtext, files, stored),
      FileEndpoint(Config(folder, SuccessOnly), lib, readtext, files, stored))
  {
    var fin, loc := Config(folder, Finally), Config(folder, SuccessOnly);
    if "image" in files && files["image"].filename != "" && AllowedFile(files["image"].filename) {
      var file := files["image"];
      var path := UploadPath(fin, lib, file.filename);
      assert UploadPath(loc, lib, file.filename) == path;
      SaveAndRecognizeCleanup(folder, readtext, ToServerError, path, lib.saveUpload(file, path), stored);
    }
  }

  lemma Base64Cleanup(folder: string, lib: Library, readtext: string -> Result<seq<Line>>,
                      body: Result<Json>, stored: set<string>)
    ensures AgreeExceptFolder(readtext,
      Base64Endpoint(Config(folder, Finally), lib, readtext, body, stored),
      Base64Endpoint(Config(folder, SuccessOnly), lib, readtext, body, stored))
  {
    if body.Ok? && Truthy(body.value) && ContainsKey(body.value, "image") == Ok(true) {
      DecodeAndRecognizeCleanup(folder, lib, readtext, body.value, stored);
    }
  }
}
