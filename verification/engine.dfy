/**
 * The pre-trained OCR engine (`easyocr.Reader(['en'])`), created once per process and
 * shared by every request. What it recognises in a file is opaque: `readtext` gives,
 * for each path, either the detected lines or the message of the exception it raises.
 * The ghost field `calls` records the paths it has been asked to read, so that a model of
 * a request can say whether the engine was reached; the engine itself keeps no such log.
 */
module Engine {
  import opened Wrappers
  import opened Aggregation

  class Reader {
    const readtext: string -> Result<seq<Line>>
    ghost var calls: seq<string>

    constructor (readtext: string -> Result<seq<Line>>)
      ensures this.readtext == readtext && calls == []
    {
      this.readtext := readtext;
      calls := [];
    }

    /** `reader.readtext(path)`. */
    method ReadText(path: string) returns (r: Result<seq<Line>>)
      modifies this
      ensures r == readtext(path)
      ensures calls == old(calls) + [path]
    {
      r := readtext(path);
      calls := calls + [path];
    }
  }
}
