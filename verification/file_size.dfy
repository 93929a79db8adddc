/**
  The byte-size helpers of the image utilities: the decoded size of a base64
  payload, and which unit the display string uses.
 */
module FileSize {
  import opened Text

  /** `base64.split(',')[1] || base64`: the text between the first comma and
      the next one (or the end) when that is not empty, otherwise the whole
      text — so also the whole text when there is no comma. */
  function MeasuredPart(s: string): (d: string)
    ensures |d| <= |s|
    ensures ',' !in s ==> d == s
    ensures forall i, j :: SecondFieldAt(s, ',', i, j) ==>
      d == (if i + 1 < j then s[i + 1..j] else s)
  {
    var parts := Split(s, ',');
    SplitSecondFields(s, ',');
    if |parts| >= 2 && parts[1] != [] then
      JoinSplit(s, ',');
      assert s == parts[0] + [','] + Join(parts[1..], ',');
      SecondFieldWithin(parts[1..]);
      parts[1]
    else s
  }

  /** The first of several joined parts is no longer than their join. */
  lemma SecondFieldWithin(parts: seq<string>)
    requires |parts| >= 1
    ensures |parts[0]| <= |Join(parts, ',')|
  {
  }

  /** Three comma-separated fields and more: a non-empty second field is
      measured, an empty one makes the whole text measured. */
  lemma ThreeFieldsMeasured(a: string, b: string, c: string)
    requires ',' !in a && ',' !in b
    ensures MeasuredPart(a + "," + b + "," + c) == if b != [] then b else a + "," + b + "," + c
  {
    var s := a + "," + b + "," + c;
    assert s[..|a|] == a && s[|a| + 1..|a| + 1 + |b|] == b;
    assert SecondFieldAt(s, ',', |a|, |a| + 1 + |b|);
  }

  /** `getBase64Size(base64)`: `Math.ceil(n * 3 / 4)` for the measured length `n`. */
  function GetBase64Size(s: string): (bytes: nat)
    ensures 4 * bytes >= 3 * |MeasuredPart(s)|
    ensures 4 * bytes < 3 * |MeasuredPart(s)| + 4
  {
    (3 * |MeasuredPart(s)| + 3) / 4
  }

  /** The empty text measures nothing. */
  lemma EmptyHasNoSize()
    ensures GetBase64Size("") == 0
  {
  }

  /** A longer measured part never gives a smaller size. */
  lemma SizeMonotone(s: string, t: string)
    requires |MeasuredPart(s)| <= |MeasuredPart(t)|
    ensures GetBase64Size(s) <= GetBase64Size(t)
  {
  }

  /** Every four characters of the measured part count as three bytes. */
  lemma SizeOfWholeQuads(s: string)
    requires |MeasuredPart(s)| % 4 == 0
    ensures GetBase64Size(s) == |MeasuredPart(s)| / 4 * 3
  {
  }

  /** For a data URL the payload after the comma is what is measured. */
  lemma DataUrlMeasuresPayload(header: string, payload: string)
    requires ',' !in header && ',' !in payload && payload != []
    ensures MeasuredPart(header + "," + payload) == payload
  {
    SplitJoin([header, payload], ',');
    assert Join([header, payload], ',') == header + "," + payload;
  }

  /** Which branch `formatFileSize(bytes)` takes: the exact count in bytes,
      or a value scaled by `divisor` and printed with a decimal fraction. */
  datatype SizeLabel = Exact(text: string) | Scaled(divisor: nat, unit: string)

  const KiB: nat := 1024
  const MiB: nat := 1024 * 1024

  function FormatFileSize(bytes: int): (l: SizeLabel)
    ensures l.Exact? <==> bytes < KiB
    ensures l.Exact? ==> l.text == IntToString(bytes) + " B"
    ensures l.Scaled? && l.unit == "KB" <==> KiB <= bytes < MiB
    ensures l.Scaled? && l.unit == "MB" <==> MiB <= bytes
    ensures l.Scaled? ==> l.divisor > 0 && l.divisor <= bytes
  {
    if bytes < KiB then Exact(IntToString(bytes) + " B")
    else if bytes < MiB then Scaled(KiB, "KB")
    else Scaled(MiB, "MB")
  }

  /** The integer part of a scaled figure is at least 1, and below 1024 for
      kilobytes. The rounding of `toFixed(1)` can still print "1024.0 KB"
      for 1048525 to 1048575 bytes; that is not covered here. */
  lemma ScaledFigureInRange(bytes: int)
    requires FormatFileSize(bytes).Scaled?
    ensures bytes / FormatFileSize(bytes).divisor >= 1
    ensures FormatFileSize(bytes).unit == "KB" ==> bytes / FormatFileSize(bytes).divisor < 1024
  {
  }

  /** The exact label of a non-negative size reads back as that size. */
  lemma ExactLabelReadsBack(bytes: nat)
    requires bytes < KiB
    ensures var t := FormatFileSize(bytes).text;
      && t == NatToString(bytes) + " B"
      && DigitsValue(NatToString(bytes)) == bytes
  {
    NatToStringValue(bytes);
  }
}
