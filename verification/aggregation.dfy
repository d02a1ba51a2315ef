/**
 * Turning the OCR engine's per-line results into the response's `text` and
 * `confidence`: the lines' texts joined by single spaces and stripped, and the
 * mean of the lines' confidences, or 0 when no line was detected.
 */
module Aggregation {

  /** One `(bounding_box, text, confidence)` triple returned by `readtext`; the box is not used. */
  datatype Line = Line(text: string, confidence: real)

  /** The lines' texts in order, with a single space between neighbours. */
  function JoinTexts(lines: seq<Line>): string {
    if |lines| == 0 then ""
    else if |lines| == 1 then lines[0].text
    else lines[0].text + " " + JoinTexts(lines[1..])
  }

  /** Joining two non-empty runs of lines puts exactly one space between their joins. */
  lemma {:induction false} JoinTextsAppend(a: seq<Line>, b: seq<Line>)
    requires |a| > 0 && |b| > 0
    ensures JoinTexts(a + b) == JoinTexts(a) + " " + JoinTexts(b)
  {
    if |a| == 1 {
      assert (a + b)[1..] == b;
    } else {
      assert (a + b)[1..] == a[1..] + b;
      JoinTextsAppend(a[1..], b);
    }
  }

  /** The characters `str.strip()` removes: those for which Python's `str.isspace` holds. */
  const Whitespace: set<char> :=
    {' ', '\t', '\n', '\U{b}', '\U{c}', '\r', '\U{1c}', '\U{1d}', '\U{1e}', '\U{1f}',
     '\U{85}', '\U{a0}', '\U{1680}', '\U{2000}', '\U{2001}', '\U{2002}', '\U{2003}',
     '\U{2004}', '\U{2005}', '\U{2006}', '\U{2007}', '\U{2008}', '\U{2009}', '\U{200a}',
     '\U{2028}', '\U{2029}', '\U{202f}', '\U{205f}', '\U{3000}'}

  predicate IsSpace(c: char) {
    c in Whitespace
  }

  /** Every character of `s` from index `i` up to `j` is whitespace. */
  predicate SpaceBetween(s: string, i: int, j: int) {
    forall k :: i <= k < j && 0 <= k < |s| ==> IsSpace(s[k])
  }

  /** Where the text of `s` starts: the first non-whitespace index at or after `i`. */
  function TextStart(s: string, i: nat): (r: nat)
    requires i <= |s|
    ensures i <= r <= |s| && SpaceBetween(s, i, r)
    ensures r < |s| ==> !IsSpace(s[r])
    decreases |s| - i
  {
    if i < |s| && IsSpace(s[i]) then TextStart(s, i + 1) else i
  }

  /** Where the text of `s[i..j]` ends: the whitespace at the end of that range is cut. */
  function TextEnd(s: string, i: nat, j: nat): (r: nat)
    requires i <= j <= |s|
    ensures i <= r <= j && SpaceBetween(s, r, j)
    ensures r > i ==> !IsSpace(s[r - 1])
  {
    if j > i && IsSpace(s[j - 1]) then TextEnd(s, i, j - 1) else j
  }

  /** `r` is `s` with the whitespace-only prefix `s[..i]` and a whitespace-only suffix cut off. */
  predicate CutFrom(s: string, r: string, i: nat) {
    i + |r| <= |s| && r == s[i..i + |r|] && SpaceBetween(s, 0, i) && SpaceBetween(s, i + |r|, |s|)
  }

  /**
   * `str.strip()`: the result is a slice of `s`, only whitespace was cut from either
   * end, and what is left neither starts nor ends with whitespace.
   */
  function Strip(s: string): (r: string)
    ensures exists i :: CutFrom(s, r, i)
    ensures |r| > 0 ==> !IsSpace(r[0]) && !IsSpace(r[|r| - 1])
  {
    var i := TextStart(s, 0);
    var j := TextEnd(s, i, |s|);
    assert CutFrom(s, s[i..j], i);
    s[i..j]
  }

  /** Stripping twice is stripping once. */
  lemma StripIdempotent(s: string)
    ensures Strip(Strip(s)) == Strip(s)
  {
    var r := Strip(s);
    StripUnchanged(r);
  }

  /** A string that neither starts nor ends with whitespace is left as it is. */
  lemma StripUnchanged(s: string)
    requires |s| > 0 ==> !IsSpace(s[0]) && !IsSpace(s[|s| - 1])
    ensures Strip(s) == s
  {
    assert TextStart(s, 0) == 0;
    assert TextEnd(s, 0, |s|) == |s|;
    assert s[0..|s|] == s;
  }

  /** The response's `text`. */
  function OcrText(lines: seq<Line>): (text: string)
    ensures lines == [] ==> text == ""
    ensures |text| <= |JoinTexts(lines)|
  {
    Strip(JoinTexts(lines))
  }

  /** The sum of the lines' confidences. */
  function SumConfidence(lines: seq<Line>): real {
    if |lines| == 0 then 0.0 else lines[0].confidence + SumConfidence(lines[1..])
  }

  /** The response's `confidence`: the mean of the lines' confidences, or 0 when there are none. */
  function MeanConfidence(lines: seq<Line>): (c: real)
    ensures |lines| == 0 ==> c == 0.0
    ensures |lines| > 0 ==> c * (|lines| as real) == SumConfidence(lines)
  {
    if |lines| > 0 then SumConfidence(lines) / (|lines| as real) else 0.0
  }

  predicate ConfidencesWithin(lines: seq<Line>, lo: real, hi: real) {
    forall k :: 0 <= k < |lines| ==> lo <= lines[k].confidence <= hi
  }

  lemma {:induction false} SumWithin(lines: seq<Line>, lo: real, hi: real)
    requires ConfidencesWithin(lines, lo, hi)
    ensures (|lines| as real) * lo <= SumConfidence(lines) <= (|lines| as real) * hi
  {
    if |lines| > 0 {
      SumWithin(lines[1..], lo, hi);
      assert (|lines| as real) * lo == lo + (|lines[1..]| as real) * lo;
      assert (|lines| as real) * hi == hi + (|lines[1..]| as real) * hi;
    }
  }

  /**
   * When every line's confidence lies in [lo, hi] (the engine reports values in [0, 1]),
   * so does the mean; with no lines the mean is 0.
   */
  lemma MeanWithin(lines: seq<Line>, lo: real, hi: real)
    requires |lines| > 0 && ConfidencesWithin(lines, lo, hi)
    ensures lo <= MeanConfidence(lines) <= hi
  {
    SumWithin(lines, lo, hi);
    var n := |lines| as real;
    var m := MeanConfidence(lines);
    assert m * n == SumConfidence(lines);
    assert n * lo <= m * n <= n * hi;
  }

  /** Detecting nothing gives the empty text and confidence 0. */
  lemma EmptyResults()
    ensures OcrText([]) == "" && MeanConfidence([]) == 0.0
  {
  }

  /** One line's text is returned stripped, and its confidence as it is. */
  lemma SingleLine(line: Line)
    ensures OcrText([line]) == Strip(line.text)
    ensures MeanConfidence([line]) == line.confidence
  {
    assert JoinTexts([line]) == line.text;
    assert SumConfidence([line]) == line.confidence + SumConfidence([]);
  }
}
