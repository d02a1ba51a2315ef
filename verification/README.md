# OCR API request handling, modelled in Dafny

The OCR_API repository wraps a pre-trained OCR engine (EasyOCR) in two near-identical
Flask services. `appHTTP.py` runs locally and stores uploads in `uploads/`.
`appHTTPvercel.py` is deployed serverless and stores uploads in `/tmp`.
Each service offers:

- `GET /health`;
- `GET /` (serverless service only);
- `POST /api/v1/ocr/file`, which takes a multipart part named `image`;
- `POST /api/v1/ocr/base64`, which takes a JSON body `{image, filename?}`.

A POST handler validates its input in a fixed order. It saves the image to the upload
folder, runs the engine on the saved path, and aggregates the detected lines: the texts
are joined by single spaces and stripped, and the confidence is the mean, or 0 when no
line is found. It then removes the saved file and answers with a success or error
envelope.

This model covers that decision logic:

- `FileNames`: `allowed_file` and `ALLOWED_EXTENSIONS`. The two files define them
  identically, so they are modelled once.
- `Aggregation`: the join, `str.strip` and the mean.
- `Storage.TempStore`: the upload folder, as the set of paths present in it.
- `Engine.Reader`: the shared engine. Its results are opaque, and it records the paths
  it was asked to read.
- `Handler`: the two endpoints as pure functions. Each takes the request, the opaque
  library calls and the folder's contents, and gives an `Outcome`: the response, the
  folder afterwards and the paths handed to the engine. The functions are parameterised
  by a `Config`, which gives the folder and the cleanup discipline. `Finally` is the
  serverless service's `try/finally`. `SuccessOnly` is the local service's `os.remove`
  placed after `readtext`. The lemmas state the validation ladder, the status codes, the
  default filename, and what each discipline leaves in the folder.
- `AppHttpVercel` and `AppHttp`: each service's two POST handlers as imperative methods
  over a `TempStore` and a `Reader`. They save, call the engine and remove, statement by
  statement as in the source. Each method is proved to produce exactly the outcome its
  `Handler` function describes under that service's `Config`.

These library calls are parameters (the `Library` datatype and the `Reader`'s
`readtext`), and each may fail with the message of its exception:

- `secure_filename`;
- `base64.b64decode`;
- `Image.open`;
- `FileStorage.save`;
- `Image.save`;
- `reader.readtext`.

`request.get_json()` is the `body` parameter. It is `Err` when Flask raised, which the
outer handler turns into 500. It is `Ok(JNull)` when it returned `None`.

Both files define the same `allowed_file` (appHTTP.py:23-24, appHTTPvercel.py:21-22) and
the same `health_check` (appHTTP.py:26-32, appHTTPvercel.py:38-44). Each is modelled
once.

## Model

| member | source | states |
|---|---|---|
| FileNames.LastIndexOf | appHTTPvercel.py:22 | finds the last dot: none exactly when the name has no dot, otherwise a dot with no dot after it |
| FileNames.Extension | appHTTPvercel.py:22 | `rsplit('.', 1)[1]`: absent iff no dot; otherwise the dot-free suffix that directly follows a dot |
| FileNames.AllowedFile | appHTTPvercel.py:21-22 | `allowed_file` itself; what it accepts is stated, in both directions, by `AllowedFileIff` |
| FileNames.LowerChar | appHTTPvercel.py:22 | one character of `.lower()`: ASCII capitals only (see Left out); its properties are stated through `Lower` |
| FileNames.Lower | appHTTPvercel.py:22 | `.lower()`, ASCII letters only (see Left out); `LowerSuffix`, `LowerKeepsDots` and `LowerIdempotent` state that it commutes with taking a suffix, keeps dots where they are, and is idempotent |
| FileNames.AllowedFileIff | appHTTPvercel.py:14-22 | `allowed_file(n)` holds iff `n` has a dot with no later dot and the text after it, lowercased, is png/jpg/jpeg/gif/bmp |
| FileNames.AllowedFileOfDotted | appHTTP.py:13-24 | for a dot-free `ext`, `stem + "." + ext` is accepted iff `ext` lowercased is one of the five, whatever dots `stem` holds |
| FileNames.ExtensionOfDotted | appHTTPvercel.py:22 | the extension of `stem + "." + ext` is `ext` when `ext` has no dot |
| FileNames.RefusedWithoutExtension | appHTTPvercel.py:22 | a name without a dot is refused, and so is any name ending in a dot |
| FileNames.AllowedFileIgnoresCase | appHTTP.py:24 | lowercasing the whole name never changes the verdict |
| FileNames.AcceptedExamples | appHTTPvercel.py:21-22 | "scan.PNG" and "a.tar.jpg" are accepted |
| FileNames.RefusedExamples | appHTTPvercel.py:21-22 | "png", "photo.png." and "notes.txt" are refused |
| Aggregation.JoinTexts | appHTTPvercel.py:73 | `' '.join` of the lines' texts; `JoinTextsAppend` states that it puts exactly one space between neighbours |
| Aggregation.JoinTextsAppend | appHTTPvercel.py:73 | the `' '.join` of two non-empty runs of lines is their joins with exactly one space between |
| Aggregation.IsSpace | appHTTPvercel.py:77 | membership in `Whitespace`, the 29 characters for which Python's `str.isspace` holds; `Strip` removes exactly these |
| Aggregation.TextStart | appHTTPvercel.py:77 | the text starts after a run of whitespace only, at a non-space or at the end |
| Aggregation.TextEnd | appHTTPvercel.py:77 | the text ends before a run of whitespace only, after a non-space or at its start |
| Aggregation.Strip | appHTTPvercel.py:77 | `str.strip()`: the result is a slice of the input, only whitespace was cut from the ends, and it neither starts nor ends with whitespace |
| Aggregation.StripIdempotent | appHTTP.py:71 | stripping a stripped text changes nothing |
| Aggregation.StripUnchanged | appHTTP.py:71 | a text without whitespace at either end is returned as it is |
| Aggregation.OcrText | appHTTPvercel.py:73-77 | the response text is no longer than the join, and is "" when no line was detected |
| Aggregation.MeanConfidence | appHTTPvercel.py:78 | confidence is 0 with no lines; otherwise it times the number of lines equals the sum of the lines' confidences |
| Aggregation.SumConfidence | appHTTPvercel.py:78 | `sum` of the lines' confidences; `SumWithin` bounds it by the number of lines times the bounds on each confidence |
| Aggregation.SumWithin | appHTTP.py:72 | with every confidence in [lo, hi], the sum lies between n·lo and n·hi |
| Aggregation.MeanWithin | appHTTP.py:72 | with at least one line and every confidence in [lo, hi], the mean lies in [lo, hi] |
| Aggregation.EmptyResults | appHTTP.py:64-72 | an empty result sequence gives text "" and confidence 0 |
| Aggregation.SingleLine | appHTTPvercel.py:73-78 | one line gives its own text stripped and its own confidence |
| Storage.TempStore.constructor | appHTTP.py:12-15 | the folder starts with the given paths |
| Storage.TempStore.Save | appHTTPvercel.py:68 | saving adds the path and keeps every other path |
| Storage.TempStore.Exists | appHTTPvercel.py:82 | `os.path.exists` is true exactly for present paths |
| Storage.TempStore.Remove | appHTTP.py:67 | `os.remove` of a present path removes it and nothing else |
| Engine.Reader.constructor | appHTTPvercel.py:18-19 | the engine starts with no calls recorded |
| Engine.Reader.ReadText | appHTTPvercel.py:72 | `readtext` gives the engine's opaque result for the path and records the call |
| Handler.HealthCheck | appHTTP.py:26-32 | `/health` answers 200 with status "healthy" and message "OCR service is running", and is not an OCR success |
| Handler.Home | appHTTPvercel.py:24-36 | `/` answers 200 with status "healthy", message "OCR service is running", version "1.0", and a directory of exactly the three routes with their paths |
| Handler.NoImageFile | appHTTPvercel.py:50-55 | a 400 failure whose error is "No image file provided" |
| Handler.NoSelectedFile | appHTTPvercel.py:59-63 | a 400 failure whose error is "No selected file" |
| Handler.InvalidFileType | appHTTPvercel.py:85-89 | a 400 failure whose error is "Invalid file type" and which lists the allowed extensions |
| Handler.NoImageData | appHTTPvercel.py:103-111 | a 400 failure whose error is "No image data provided" |
| Handler.InvalidBase64 | appHTTPvercel.py:137-142 | a 400 failure whose error is "Invalid base64 image data" and whose details are the exception's text |
| Handler.ServerError | appHTTPvercel.py:91-95 | a 500 failure whose error is the exception's text |
| Handler.RecognizedLines | appHTTPvercel.py:75-79 | a 200 success; with no lines its text is "" and its confidence 0 |
| Handler.PathJoin | appHTTPvercel.py:67 | `os.path.join`: the result ends with the name; a relative name follows the folder; an absolute name replaces it |
| Handler.UploadPath | appHTTPvercel.py:66-67 | the folder joined with the sanitised upload name; `FileRecognition` states that the engine is only ever called on it |
| Handler.UploadIsTruthy | appHTTPvercel.py:65 | `bool(file)` holds iff the upload's filename is not empty |
| Handler.Truthy | appHTTPvercel.py:103 | `not data`: `None` is falsy; a string, list or dict is truthy iff not empty; a dict holding `image` is truthy |
| Handler.ContainsKey | appHTTPvercel.py:103 | `'image' in data` raises exactly when `data` is not a dict, list or string; on a dict it is key membership |
| Handler.HasSubstring | appHTTPvercel.py:103 | `'image' in data` on a string: a substring test; `ContainsKey` uses it for string bodies |
| Handler.Lookup | appHTTPvercel.py:114 | `data['image']` succeeds iff `data` is a dict holding the key, and then gives its value |
| Handler.FilenameArg | appHTTPvercel.py:118 | `data.get('filename', 'temp.png')` succeeds iff `data` is a dict, giving the field when present and "temp.png" otherwise |
| Handler.SecureFilenameOf | appHTTPvercel.py:118 | `secure_filename` succeeds exactly on a string, giving the sanitised name; any other value raises, with the library's message |
| Handler.DecodeImage | appHTTPvercel.py:114-115 | succeeds only for a dict whose `image` field decodes, and is then `Image.open` of the decoded bytes; a decoding failure carries the decoder's message |
| Handler.SaveAndRecognize | appHTTPvercel.py:66-83 | after validation, the engine is called once, on the saved path, iff the save succeeded; success iff it returned; a save that raises, or an engine that raises, answers through the given handler with that exception's own message; the folder is as `FolderAfter` says |
| Handler.AfterOcrFailure | appHTTPvercel.py:80-83 | after the engine raised, the saved path is gone under `finally` and stays without it (appHTTP.py:63-67); every other path is as before |
| Handler.Raised | appHTTPvercel.py:137-148 | an exception reaching the outer `except` gives 500 with its text; reaching the base64 endpoint's inner `except` gives 400 "Invalid base64 image data" with its text as details |
| Handler.FileEndpoint | appHTTPvercel.py:46-95 | at most one engine call; status 200, 400 or 500; 200 iff the engine was reached and returned, with its lines aggregated; the folder as `FolderAfter` says |
| Handler.TargetPath | appHTTPvercel.py:118-119 | with no `filename` field the path is `join(folder, secure_filename("temp.png"))` |
| Handler.DecodeAndRecognize | appHTTPvercel.py:113-142 | every outcome is a 200 from the engine or a 400 "Invalid base64 image data" with details; the folder as `FolderAfter` says |
| Handler.Base64Endpoint | appHTTPvercel.py:97-148 | at most one engine call; status 200, 400 or 500; 200 iff the engine was reached and returned; the folder as `FolderAfter` says |
| Handler.FileRejections | appHTTPvercel.py:50-65 | a missing part gives 400 "No image file provided", an empty filename 400 "No selected file", a disallowed extension 400 "Invalid file type"; each leaves the folder as it was and does not call the engine |
| Handler.FileRecognition | appHTTPvercel.py:65-95 | the engine is called iff the part is present, named, allowed and saved, and then only on `join(folder, secure_filename(name))`; it returning gives 200 with the aggregate, it raising gives 500 with the message; a save that raises gives 500 with the save's message, no file and no engine call |
| Handler.Base64Rejections | appHTTPvercel.py:100-148 | a body Flask could not read gives 500, and so does a truthy body on which `'image' in data` raises (a number or a boolean), with the raised message; a falsy body or one without `image` gives 400 "No image data provided", whatever the decoder would do; none of these saves a file or calls the engine |
| Handler.Base64MissingImage | appHTTP.py:98-108 | a null body and an object without `image` both give 400 "No image data provided" and leave the folder unchanged |
| Handler.Base64FailuresAre400 | appHTTP.py:111-138 | once `image` is present, no outcome is a 500; every failure is 400 "Invalid base64 image data" |
| Handler.Base64DefaultFilename | appHTTP.py:116-117 | without `filename`, the engine is only ever called on `join(folder, secure_filename("temp.png"))` |
| Handler.Base64Recognition | appHTTPvercel.py:100-131 | for every body, the engine is reached iff the body passes validation, its image decodes and parses, its filename sanitises and the image saves; it is then reached once, on the folder joined with the sanitised filename; it returning gives 200 with the aggregate, it raising gives 400 with its message |
| Handler.Base64StepFailures | appHTTPvercel.py:113-142 | past validation, a failure in reading `image`, decoding, opening, sanitising the filename or saving gives 400 "Invalid base64 image data" with that step's message as details, no saved file and no engine call |
| Handler.Base64NamedFile | appHTTPvercel.py:118-119 | a body with a string `filename` is handed to the engine only on `join(folder, secure_filename(filename))` |
| Handler.FinallyReleasesSavedFile | appHTTPvercel.py:80-83 | with `finally`, both endpoints leave the folder as it was minus the paths handed to the engine, whether the engine returned or raised |
| Handler.SuccessOnlyLeavesFileOnOcrFailure | appHTTP.py:60-67 | without `finally`, the saved path is removed when the engine returns and stays in the folder when it raises; a request that never reached the engine leaves the folder unchanged |
| Handler.CleanupAffectsOnlyStorage | appHTTP.py:118-125 | the two disciplines give the same responses and engine calls for every request, and different folders only after the engine raised |
| AppHttpVercel.ExtractTextFromFile | appHTTPvercel.py:46-95 | the serverless file handler produces exactly `FileEndpoint` with `/tmp` and `finally`, and never grows the folder |
| AppHttpVercel.ExtractTextFromBase64 | appHTTPvercel.py:97-148 | the serverless base64 handler produces exactly `Base64Endpoint` with `/tmp` and `finally`, and never grows the folder |
| AppHttp.ExtractTextFromFile | appHTTP.py:34-85 | the local file handler produces exactly `FileEndpoint` with `uploads` and success-only removal; any path it adds was handed to the engine |
| AppHttp.ExtractTextFromBase64 | appHTTP.py:87-144 | the local base64 handler produces exactly `Base64Endpoint` with `uploads` and success-only removal; any path it adds was handed to the engine |

## Left out

- Flask routing, request parsing and `jsonify` are not modelled. Requests and responses
  are datatypes. `list(ALLOWED_EXTENSIONS)` in the "Invalid file type" envelope is a
  set, because its order is unspecified.
- `Aggregation.MeanConfidence`: Python floats are modelled as exact reals, so rounding is
  not modelled. In the empty case the source returns the integer `0`, which is modelled
  as `0.0`.
- `FileNames.Lower`: only ASCII letters are folded. Python's `str.lower` folds all of
  Unicode. Only two non-ASCII characters lowercase to an ASCII letter: U+212A (to "k")
  and U+0130 (to "i" plus U+0307). Neither can produce one of the five extensions, so
  the membership test decides the same way.
- The bounding boxes returned by `readtext` are dropped. What the engine recognises is
  an opaque function of the path: the file's pixels are not modelled.
- The folder holds paths, not contents. A failed `FileStorage.save` or `Image.save` is
  assumed to leave the folder unchanged. Saving over an existing path, and then removing
  it, deletes that earlier file. The model shows this; the source does nothing about it.
- The texts of the exceptions raised by `secure_filename` on a non-string value come
  from an opaque `Library` function. The texts of Python's own `TypeError`/`KeyError`
  are written out in their Python 3.11 wording.
- Concurrent requests that share a temporary filename are not modelled. This is
  concurrency, and the source has no locking.
- The serverless `handler` wrapper, `os.makedirs` of the local folder and `app.run` are
  deployment plumbing and are not modelled.
- `Storage.TempStore.Remove` requires the path to be present, because `os.remove`
  raises otherwise. The handlers only remove a path they have just saved, so the model
  never reaches that error path.
- Whether posting raw bytes and posting their base64 encoding give the same answer is
  not modelled. It depends on the engine reading identical pixels from the
  file PIL re-encodes, and that is outside the model.
