/**
 * The upload-name validator `allowed_file` and the set `ALLOWED_EXTENSIONS`,
 * defined identically in both services.
 */
module FileNames {
  import opened Wrappers

  const AllowedExtensions: set<string> := {"png", "jpg", "jpeg", "gif", "bmp"}

  /** `str.lower` on one character; only ASCII letters are folded (see README). */
  function LowerChar(c: char): char {
    if 'A' <= c <= 'Z' then (c as int + 32) as char else c
  }

  function Lower(s: string): string {
    seq(|s|, i requires 0 <= i < |s| => LowerChar(s[i]))
  }

  /** Position of the last occurrence of `c` in `s`, if any. */
  function LastIndexOf(s: string, c: char): (r: Option<nat>)
    ensures r.None? <==> c !in s
    ensures r.Some? ==> r.value < |s| && s[r.value] == c && c !in s[r.value + 1..]
  {
    if |s| == 0 then None
    else if s[|s| - 1] == c then Some(|s| - 1)
    else
      var r := LastIndexOf(s[..|s| - 1], c);
      assert s == s[..|s| - 1] + [s[|s| - 1]];
      if r.Some? then
        assert s[r.value + 1..] == s[..|s| - 1][r.value + 1..] + [s[|s| - 1]];
        r
      else r
  }

  /** The text after the last dot of `name`, when it has a dot. */
  function Extension(name: string): (r: Option<string>)
    ensures r.None? <==> '.' !in name
    ensures r.Some? ==>
      |r.value| < |name| && name[|name| - |r.value| - 1] == '.' &&
      name[|name| - |r.value|..] == r.value && '.' !in r.value
  {
    match LastIndexOf(name, '.')
    case None => None
    case Some(i) => Some(name[i + 1..])
  }

  /** Whether an uploaded filename has one of the allowed extensions. */
  predicate AllowedFile(name: string) {
    match Extension(name)
    case None => false
    case Some(ext) => Lower(ext) in AllowedExtensions
  }

  /**
   * A name is accepted exactly when it has a dot with no further dot after it and the
   * text after that dot, lowercased, is one of the five extensions.
   */
  lemma AllowedFileIff(name: string)
    ensures AllowedFile(name) <==>
      exists i :: 0 <= i < |name| && name[i] == '.' && '.' !in name[i + 1..] &&
        Lower(name[i + 1..]) in AllowedExtensions
  {
    if AllowedFile(name) {
      var i := LastIndexOf(name, '.').value;
      assert name[i] == '.' && '.' !in name[i + 1..] && Lower(name[i + 1..]) in AllowedExtensions;
    }
    forall i | 0 <= i < |name| && name[i] == '.' && '.' !in name[i + 1..]
      ensures Extension(name) == Some(name[i + 1..])
    {
      LastDotIsUnique(name, i, LastIndexOf(name, '.').value);
    }
  }

  /** Two dots neither of which has a dot after it are the same dot. */
  lemma LastDotIsUnique(name: string, i: nat, j: nat)
    requires i < |name| && j < |name| && name[i] == '.' && name[j] == '.'
    requires '.' !in name[i + 1..] && '.' !in name[j + 1..]
    ensures i == j
  {
  }

  /** The extension of `stem + "." + ext` is `ext` whenever `ext` has no dot, whatever `stem` holds. */
  lemma ExtensionOfDotted(stem: string, ext: string)
    requires '.' !in ext
    ensures Extension(stem + "." + ext) == Some(ext)
  {
    var name := stem + "." + ext;
    assert name[|stem|] == '.';
    assert name[|stem| + 1..] == ext;
    LastDotIsUnique(name, |stem|, LastIndexOf(name, '.').value);
  }

  /** `allowed_file(stem + "." + ext)` depends only on `ext`, compared case-insensitively. */
  lemma AllowedFileOfDotted(stem: string, ext: string)
    requires '.' !in ext
    ensures AllowedFile(stem + "." + ext) <==> Lower(ext) in AllowedExtensions
  {
    ExtensionOfDotted(stem, ext);
  }

  /** A name without a dot, or ending in a dot, is refused. */
  lemma RefusedWithoutExtension(name: string)
    ensures '.' !in name ==> !AllowedFile(name)
    ensures !AllowedFile(name + ".")
  {
    ExtensionOfDotted(name, "");
    assert name + "." == name + "." + "";
  }

  lemma LowerSuffix(s: string, a: nat)
    requires a <= |s|
    ensures Lower(s)[a..] == Lower(s[a..])
  {
  }

  lemma LowerKeepsDots(s: string)
    ensures '.' in Lower(s) <==> '.' in s
  {
    if '.' in Lower(s) {
      var k :| 0 <= k < |s| && Lower(s)[k] == '.';
      assert s[k] == '.';
    }
    if '.' in s {
      var k :| 0 <= k < |s| && s[k] == '.';
      assert Lower(s)[k] == '.';
    }
  }

  lemma LowerIdempotent(s: string)
    ensures Lower(Lower(s)) == Lower(s)
  {
  }

  /** Lowercasing the whole name first never changes the verdict. */
  lemma AllowedFileIgnoresCase(name: string)
    ensures AllowedFile(Lower(name)) == AllowedFile(name)
  {
    var low := Lower(name);
    LowerKeepsDots(name);
    match Extension(name)
    case None =>
    case Some(ext) =>
      var n := |name| - |ext|;
      assert low[n - 1] == '.';
      LowerSuffix(name, n);
      assert low[n..] == Lower(ext);
      LowerKeepsDots(ext);
      assert low == low[..n - 1] + "." + Lower(ext);
      ExtensionOfDotted(low[..n - 1], Lower(ext));
      LowerIdempotent(ext);
  }

  /** Names quoted in the service's behaviour: an upper-case extension and a dotted stem pass. */
  lemma AcceptedExamples()
    ensures AllowedFile("scan.PNG") && AllowedFile("a.tar.jpg")
  {
    assert Lower("PNG") == "png";
    ExtensionOfDotted("scan", "PNG");
    assert "scan" + "." + "PNG" == "scan.PNG";
    ExtensionOfDotted("a.tar", "jpg");
    assert "a.tar" + "." + "jpg" == "a.tar.jpg";
    assert Lower("jpg") == "jpg";
  }

  /** A bare extension, a trailing dot and a foreign extension are refused. */
  lemma RefusedExamples()
    ensures !AllowedFile("png") && !AllowedFile("photo.png.") && !AllowedFile("notes.txt")
  {
    RefusedWithoutExtension("png");
    RefusedWithoutExtension("photo.png");
    assert "photo.png" + "." == "photo.png.";
    ExtensionOfDotted("notes", "txt");
    assert "notes" + "." + "txt" == "notes.txt";
    assert Lower("txt") == "txt";
    assert "txt" !in AllowedExtensions;
  }
}
