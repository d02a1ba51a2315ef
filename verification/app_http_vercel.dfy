/**
 * The serverless service: uploads go to `/tmp`, and each POST handler removes the saved
 * file in a `finally` block, so the removal also runs when the OCR engine raises.
 */
module AppHttpVercel {
  import opened Wrappers
  import opened FileNames
  import opened Storage
  import opened Engine
  import opened Handler

  const UploadFolder: string := "/tmp"

  const Service: Config := Config(UploadFolder, Finally)

  /** POST /api/v1/ocr/file; `files` is `request.files`. */
  method ExtractTextFromFile(files: map<string, Upload>, lib: Library, store: TempStore, reader: Reader)
    returns (response: Response)
    modifies store, reader
    ensures var o := FileEndpoint(Service, lib, reader.readtext, files, old(store.files));
      response == o.response && store.files == o.files && reader.calls == old(reader.calls) + o.ocrCalls
    ensures store.files <= old(store.files)
  {
    if "image" !in files {
      return NoImageFile();
    }
    var file := files["image"];
    if file.filename == "" {
      return NoSelectedFile();
    }
    if UploadIsTruthy(file) && AllowedFile(file.filename) {
      var filename := lib.secureFilename(file.filename);
      var filepath := PathJoin(UploadFolder, filename);
      assert FileEndpoint(Service, lib, reader.readtext, files, store.files)
        == SaveAndRecognize(Service, reader.readtext, ToServerError, filepath, lib.saveUpload(file, filepath), store.files);
      var saveError := lib.saveUpload(file, filepath);
      if saveError.Some? {
        return ServerError(saveError.value);
      }
      store.Save(filepath);
      var results := reader.ReadText(filepath);
      // finally:
      var present := store.Exists(filepath);
      if present {
        store.Remove(filepath);
      }
      match results {
        case Ok(lines) => response := RecognizedLines(lines);
        case Err(e) => response := ServerError(e);
      }
      return;
    }
    return InvalidFileType();
  }

  /** POST /api/v1/ocr/base64; `body` is `request.get_json()`, or the message of what it raised. */
  method ExtractTextFromBase64(body: Result<Json>, lib: Library, store: TempStore, reader: Reader)
    returns (response: Response)
    modifies store, reader
    ensures var o := Base64Endpoint(Service, lib, reader.readtext, body, old(store.files));
      response == o.response && store.files == o.files && reader.calls == old(reader.calls) + o.ocrCalls
    ensures store.files <= old(store.files)
  {
    if body.Err? {
      return ServerError(body.message);
    }
    var data := body.value;
    if !Truthy(data) {
      return NoImageData();
    }
    var hasImage := ContainsKey(data, "image");
    if hasImage.Err? {
      return ServerError(hasImage.message);
    }
    if !hasImage.value {
      return NoImageData();
    }
    // inner try:
    var encoded := Lookup(data, "image");
    if encoded.Err? {
      return InvalidBase64(encoded.message);
    }
    var imageData := lib.b64decode(encoded.value);
    if imageData.Err? {
      return InvalidBase64(imageData.message);
    }
    var image := lib.openImage(imageData.value);
    if image.Err? {
      return InvalidBase64(image.message);
    }
    // `data['image']` succeeded, so `data` is a dict and `data.get` cannot raise.
    var arg := FilenameArg(data).value;
    var filename := SecureFilenameOf(lib, arg);
    if filename.Err? {
      return InvalidBase64(filename.message);
    }
    var filepath := PathJoin(UploadFolder, filename.value);
    assert DecodeImage(lib, data) == image && TargetPath(Service, lib, data) == Ok(filepath);
    assert Base64Endpoint(Service, lib, reader.readtext, body, store.files)
      == SaveAndRecognize(Service, reader.readtext, ToInvalidBase64, filepath, lib.saveImage(image.value, filepath), store.files);
    var saveError := lib.saveImage(image.value, filepath);
    if saveError.Some? {
      return InvalidBase64(saveError.value);
    }
    store.Save(filepath);
    var results := reader.ReadText(filepath);
    // finally:
    var present := store.Exists(filepath);
    if present {
      store.Remove(filepath);
    }
    match results {
      case Ok(lines) => response := RecognizedLines(lines);
      case Err(e) => response := InvalidBase64(e);
    }
  }
}
