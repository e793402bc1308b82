/**
 * The pure part of thumbnail_generator/update_youtube_videos.py: the two
 * regular expressions (part number at the end of a title, thumbnail file
 * names), the `START-END` parser of `--part-range`, and the choice of filter
 * made in `main`.  Regular expressions are modelled on ASCII: `\d` is an ASCII
 * digit, `$` is the true end of the string and IGNORECASE folds ASCII letters.
 */
module UpdatePatterns {
  import opened Wrappers
  import opened PyText
  import ThumbnailGen

  /** `Part ` as IGNORECASE compares it: lower-cased. */
  const PartKeyword: string := "part "

  /** `thumbnail_part_` (already lower case). */
  const ThumbPrefix: string := "thumbnail_part_"

  /** The extensions the thumbnail pattern accepts, lower-cased. */
  const ThumbExtensions: set<string> := {"jpg", "jpeg", "png"}

  /** Length of the run of digits at the end of `s`. */
  function TrailingDigitCount(s: string): (n: nat)
    ensures n <= |s|
    ensures AllDigits(s[|s| - n..])
    ensures n < |s| ==> !IsDigit(s[|s| - n - 1])
  {
    if |s| == 0 || !IsDigit(s[|s| - 1]) then 0
    else
      var n := TrailingDigitCount(s[..|s| - 1]) + 1;
      assert s[|s| - n..] == s[..|s| - 1][|s| - n..] + [s[|s| - 1]];
      n
  }

  /** Length of the run of digits at the start of `s`. */
  function LeadingDigitCount(s: string): (n: nat)
    ensures n <= |s|
    ensures AllDigits(s[..n])
    ensures n < |s| ==> !IsDigit(s[n])
  {
    if |s| == 0 || !IsDigit(s[0]) then 0
    else
      var n := 1 + LeadingDigitCount(s[1..]);
      assert s[..n] == [s[0]] + s[1..][..n - 1];
      n
  }

  /** The digit run ending a string starts where the digits start. */
  lemma TrailingDigitCountExact(s: string, j: nat)
    requires j <= |s| && AllDigits(s[j..])
    requires j > 0 ==> !IsDigit(s[j - 1])
    ensures TrailingDigitCount(s) == |s| - j
  {
  }

  /** The digit run starting a string ends at its first non-digit. */
  lemma LeadingDigitCountExact(s: string, j: nat)
    requires j <= |s| && AllDigits(s[..j])
    requires j < |s| ==> !IsDigit(s[j])
    ensures LeadingDigitCount(s) == j
  {
  }

  /**
   * `re.search(r"Part (\d+)$", title, re.IGNORECASE)` followed by
   * `int(match.group(1))`; `None` when there is no match.
   */
  function PartNumber(title: string): (r: Option<nat>)
    ensures r.Some? ==> EndsWithPartAt(title, |title| - TrailingDigitCount(title))
  {
    var n := TrailingDigitCount(title);
    var j := |title| - n;
    if n > 0 && j >= 5 && LowerStr(title[j - 5..j]) == PartKeyword then Some(DigitsValue(title[j..]))
    else None
  }

  /** From index j on, `title` is digits, and the five characters before j spell `Part ` in any case. */
  predicate EndsWithPartAt(title: string, j: int)
  {
    5 <= j < |title| && LowerStr(title[j - 5..j]) == PartKeyword && AllDigits(title[j..])
  }

  /**
   * A title has a part number iff it ends in `Part ` (any case) and one or more
   * digits; the number is the value of those digits, leading zeros dropped.
   */
  lemma PartNumberSpec(title: string)
    ensures PartNumber(title).Some? <==> exists j :: EndsWithPartAt(title, j)
    ensures forall j :: EndsWithPartAt(title, j) ==> PartNumber(title) == Some(DigitsValue(title[j..]))
  {
    forall j | EndsWithPartAt(title, j)
      ensures PartNumber(title) == Some(DigitsValue(title[j..]))
    {
      assert LowerStr(title[j - 5..j])[4] == ' ';
      TrailingDigitCountExact(title, j);
    }
    if PartNumber(title).Some? {
      assert EndsWithPartAt(title, |title| - TrailingDigitCount(title));
    }
  }

  /** `"ep part 07"` has part number 7. */
  lemma PartNumberExample()
    ensures PartNumber("ep part 07") == Some(7)
  {
    var t := "ep part 07";
    assert t[3..8] == "part ";
    assert t[8..] == "07";
    assert EndsWithPartAt(t, 8);
    PartNumberSpec(t);
    assert DigitsValue("07") == DigitsValue("0") * 10 + 7;
  }

  /**
   * `re.match(r"thumbnail_part_(\d+)\.(jpg|jpeg|png)$", name, re.IGNORECASE)`
   * followed by `int(match.group(1))`; `None` when the name does not match.
   */
  function ThumbPart(name: string): (r: Option<nat>)
    ensures r.Some? ==> |name| > |ThumbPrefix| && ThumbNameAt(name, |ThumbPrefix| + LeadingDigitCount(name[|ThumbPrefix|..]))
  {
    var p := |ThumbPrefix|;
    if |name| <= p || LowerStr(name[..p]) != ThumbPrefix then None
    else
      var dot := p + LeadingDigitCount(name[p..]);
      if dot > p && dot < |name| && name[dot] == '.' && LowerStr(name[dot + 1..]) in ThumbExtensions then
        assert name[p..dot] == name[p..][..dot - p];
        Some(DigitsValue(name[p..dot]))
      else None
  }

  /** The whole name is `thumbnail_part_`, digits up to index `dot`, a dot there, and an accepted extension (any case). */
  predicate ThumbNameAt(name: string, dot: int)
  {
    && |ThumbPrefix| < dot < |name|
    && LowerStr(name[..|ThumbPrefix|]) == ThumbPrefix
    && AllDigits(name[|ThumbPrefix|..dot])
    && name[dot] == '.'
    && LowerStr(name[dot + 1..]) in ThumbExtensions
  }

  /**
   * A file name gives a part number iff the whole name is
   * `thumbnail_part_<digits>.<jpg|jpeg|png>` ignoring case; the number is the digits' value.
   */
  lemma ThumbPartSpec(name: string)
    ensures ThumbPart(name).Some? <==> exists dot :: ThumbNameAt(name, dot)
    ensures forall dot :: ThumbNameAt(name, dot) ==> ThumbPart(name) == Some(DigitsValue(name[|ThumbPrefix|..dot]))
  {
    var p := |ThumbPrefix|;
    forall dot | ThumbNameAt(name, dot)
      ensures ThumbPart(name) == Some(DigitsValue(name[p..dot]))
    {
      assert name[p..][..dot - p] == name[p..dot];
      LeadingDigitCountExact(name[p..], dot - p);
    }
    if ThumbPart(name).Some? {
      var dot := p + LeadingDigitCount(name[p..]);
      assert name[p..][..dot - p] == name[p..dot];
      assert ThumbNameAt(name, dot);
    }
  }

  /** Upper-case names match too: `THUMBNAIL_PART_12.JPEG` is part 12. */
  lemma ThumbPartIgnoresCase()
    ensures ThumbPart("THUMBNAIL_PART_12.JPEG") == Some(12)
  {
    var name := "THUMBNAIL_PART_12.JPEG";
    assert LowerStr(name[..15]) == ThumbPrefix;
    assert name[15..17] == "12";
    assert LowerStr(name[18..]) == "jpeg";
    assert ThumbNameAt(name, 17);
    ThumbPartSpec(name);
    assert DigitsValue("12") == DigitsValue("1") * 10 + 2;
  }

  /**
   * The files the compositor writes are the files the matcher recognises, with
   * the same part number; a negative part gives a name the matcher skips.
   */
  lemma OutputNameRecognised(part: int)
    ensures part >= 0 ==> ThumbPart(ThumbnailGen.OutputName(part)) == Some(part)
    ensures part < 0 ==> ThumbPart(ThumbnailGen.OutputName(part)) == None
  {
    var name := ThumbnailGen.OutputName(part);
    var s := IntToString(part);
    var p := |ThumbPrefix|;
    assert name[..p] == ThumbPrefix;
    assert name[p..p + |s|] == s;
    if part >= 0 {
      var dot := p + |s|;
      assert name[dot + 1..] == "png";
      assert LowerStr("png") == "png";
      assert ThumbNameAt(name, dot);
      ThumbPartSpec(name);
      NatToStringValue(part);
    } else {
      assert name[p] == '-';
      LeadingDigitCountExact(name[p..], 0);
    }
  }

  /** The `ArgumentTypeError` message for a rejected `--part-range` text. */
  function PartRangeError(text: string): string
  {
    "Invalid part range: '" + text + "'. Use format start-end, e.g., 130-145."
  }

  /** `parse_part_range`: two integers around one dash, start <= end. */
  function ParsePartRange(text: string): (r: Result<(int, int)>)
    ensures r.Err? ==> r.error == PartRangeError(text)
    ensures r.Ok? ==> r.value.0 <= r.value.1 && '-' in text
  {
    SplitDashFree(text);
    var fields := Split(text, '-');
    if |fields| == 2 && ParseInt(fields[0]).Some? && ParseInt(fields[1]).Some?
       && ParseInt(fields[0]).value <= ParseInt(fields[1]).value then
      Ok((ParseInt(fields[0]).value, ParseInt(fields[1]).value))
    else
      Err(PartRangeError(text))
  }

  /**
   * The uploader's parser accepts exactly what the compositor's accepts, minus
   * the reversed ranges: where the compositor yields an empty range, this one fails.
   */
  lemma ParsePartRangeVersusParseRange(text: string)
    ensures ParsePartRange(text).Ok? <==>
      ThumbnailGen.ParseRange(text).Ok? && ThumbnailGen.ParseRange(text).value.start < ThumbnailGen.ParseRange(text).value.stop
    ensures ParsePartRange(text).Ok? ==>
      var (a, b) := ParsePartRange(text).value;
      ThumbnailGen.ParseRange(text) == Ok(ThumbnailGen.Range(a, b + 1))
  {
  }

  /** Two dash-free integer fields are accepted exactly when start <= end. */
  lemma ParsePartRangeAccepts(x: string, y: string)
    requires '-' !in x && '-' !in y
    requires ParseInt(x).Some? && ParseInt(y).Some?
    ensures ParsePartRange(x + "-" + y) ==
      if ParseInt(x).value <= ParseInt(y).value then Ok((ParseInt(x).value, ParseInt(y).value)) else Err(PartRangeError(x + "-" + y))
  {
    SplitTwoFields(x + "-" + y, '-', x, y);
  }

  /** Whatever is accepted is `START-END` with a single dash and START <= END. */
  lemma ParsePartRangeShape(text: string) returns (dash: nat)
    requires ParsePartRange(text).Ok?
    ensures dash < |text| && text[dash] == '-'
    ensures '-' !in text[..dash] && '-' !in text[dash + 1..]
    ensures ParseInt(text[..dash]).Some? && ParseInt(text[dash + 1..]).Some?
    ensures ParsePartRange(text).value == (ParseInt(text[..dash]).value, ParseInt(text[dash + 1..]).value)
    ensures ParsePartRange(text).value.0 <= ParsePartRange(text).value.1
  {
    var fields := Split(text, '-');
    SplitTwoFields(text, '-', fields[0], fields[1]);
    dash := |fields[0]|;
    assert text[..dash] == fields[0];
    assert text[dash + 1..] == fields[1];
  }

  /** A negative start adds a dash, so `-3-5` is rejected. */
  lemma ParsePartRangeRejectsNegativeStart(x: string, y: string)
    ensures ParsePartRange("-" + x + "-" + y).Err?
  {
    var text := "-" + x + "-" + y;
    if ParsePartRange(text).Ok? {
      var dash := ParsePartRangeShape(text);
    }
  }

  /** The decimal forms of 0 <= a <= b, joined by a dash, parse back to (a, b). */
  lemma ParsePartRangeRoundTrip(a: nat, b: nat)
    requires a <= b
    ensures ParsePartRange(IntToString(a) + "-" + IntToString(b)) == Ok((a, b))
  {
    IntRoundTrip(a);
    IntRoundTrip(b);
    ParsePartRangeAccepts(IntToString(a), IntToString(b));
  }

  /** The selection `main` makes: at most one filter, chosen by `--min-part` first. */
  datatype PartFilter = NoFilter | MinPart(min: int) | PartRange(start: int, end: int)

  /** Whether a title passes a filter; a title without a part number passes only `NoFilter`. */
  predicate Wanted(f: PartFilter, title: string)
  {
    match f
    case NoFilter => true
    case MinPart(m) => PartNumber(title).Some? && PartNumber(title).value >= m
    case PartRange(lo, hi) => PartNumber(title).Some? && lo <= PartNumber(title).value <= hi
  }

  /** `if args.min_part: ... elif args.part_range: ...` (a min part of 0 is falsy). */
  function ChooseFilter(minPart: Option<int>, partRange: Option<(int, int)>): (f: PartFilter)
    ensures minPart.Some? && minPart.value != 0 ==> f == MinPart(minPart.value)
    ensures (minPart.None? || minPart.value == 0) && partRange.Some? ==> f == PartRange(partRange.value.0, partRange.value.1)
    ensures f == NoFilter <==> (minPart.None? || minPart.value == 0) && partRange.None?
  {
    if minPart.Some? && minPart.value != 0 then MinPart(minPart.value)
    else if partRange.Some? then PartRange(partRange.value.0, partRange.value.1)
    else NoFilter
  }
}
