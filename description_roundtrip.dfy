/** The description tag the rasterisation step writes (`INDEX:<index>; TIMESTAMP:<ts>`) read
    back by the statistics step of the post-processing: the parser recovers the index name and
    the year of the XML file the timestamp came from. */
module DescriptionRoundTrip {
  import opened Wrappers
  import opened PyStr
  import opened PyDatetime
  import JoinGpkg2Tif
  import PostProc

  /** The timestamp `extract_timestamp_xml` builds from the year digits `y`. */
  function YearEndTimestamp(y: string): (t: DateTime)
    requires |y| == 4 && AllDigits(y)
    ensures t.year == DigitsValue(y) <= 9999
  {
    DigitsValueAtMost(y);
    DateTime(DigitsValue(y), 12, 31, 23, 59, 59)
  }

  lemma {:induction false} DigitsValueAtMost(y: string)
    requires |y| == 4 && AllDigits(y)
    ensures DigitsValue(y) <= 9999
  {
    var y3 := y[..3];
    var y2 := y3[..2];
    var y1 := y2[..1];
    DigitsValueDrop(y);
    DigitsValueDrop(y3);
    DigitsValueDrop(y2);
    DigitsValueDrop(y1);
    assert y1[..0] == [];
  }

  /** Dropping the last digit: the value is at most ten times the rest's plus nine. */
  lemma {:induction false} DigitsValueDrop(s: string)
    requires AllDigits(s) && s != []
    ensures AllDigits(s[..|s| - 1])
    ensures DigitsValue(s) <= DigitsValue(s[..|s| - 1]) * 10 + 9
  {
    assert forall i :: 0 <= i < |s| - 1 ==> s[..|s| - 1][i] == s[i];
  }

  /** Any parsed description: the text after `TIMESTAMP:` is handed to `strptime`, and the
      index comes back whole. */
  lemma {:induction false} ParseOfDescription(idx: string, tsText: string)
    requires ':' !in idx && !Contains(idx, "; ") && ';' !in tsText
    ensures PostProc.ParseDescription(JoinGpkg2Tif.Description(idx, Some(tsText))) ==
              match Strptime(Strip(tsText)) case Err(e) => Err(e) case Ok(t) => Ok((idx, t.year))
  {
    SplitDescription(idx, tsText);
    IndexHalf(idx);
    TimestampHalf(tsText);
  }

  lemma {:induction false} IndexHalf(idx: string)
    requires ':' !in idx
    ensures Split("INDEX:" + idx, ":") == ["INDEX", idx]
  {
    assert "INDEX:" + idx == "INDEX" + ":" + idx;
    CharAbsentNoOccur("INDEX", ':', idx);
    SplitAt("INDEX", ":", idx);
    SplitCharAbsent(idx, ':');
  }

  lemma {:induction false} TimestampHalf(tsText: string)
    ensures SplitOnce("TIMESTAMP:" + tsText, ":") == ["TIMESTAMP", tsText]
  {
    var b := "TIMESTAMP:" + tsText;
    assert b == "TIMESTAMP" + ":" + tsText;
    CharAbsentNoOccur("TIMESTAMP", ':', tsText);
    IndexOfAfter("TIMESTAMP", ":", tsText);
    assert b[10..] == tsText;
    assert b[..9] == "TIMESTAMP";
  }

  /** The description splits at `"; "` into its index and timestamp halves. */
  lemma {:induction false} SplitDescription(idx: string, tsText: string)
    requires !Contains(idx, "; ") && ';' !in tsText
    ensures Split(JoinGpkg2Tif.Description(idx, Some(tsText)), "; ") == ["INDEX:" + idx, "TIMESTAMP:" + tsText]
  {
    var a, b := "INDEX:" + idx, "TIMESTAMP:" + tsText;
    assert JoinGpkg2Tif.Description(idx, Some(tsText)) == a + "; " + b;
    IndexHalfNoSeparator(idx, b);
    SplitAt(a, "; ", b);
    TimestampHalfNoSeparator(tsText);
    SplitNoSep(b, "; ");
  }

  /** No `"; "` starts inside the index half `INDEX:<idx>`. */
  lemma {:induction false} IndexHalfNoSeparator(idx: string, b: string)
    requires !Contains(idx, "; ")
    ensures forall j :: 0 <= j < |"INDEX:" + idx| ==> !OccursAt("INDEX:" + idx + "; " + b, "; ", j)
  {
    var a := "INDEX:" + idx;
    var d := a + "; " + b;
    forall j | 0 <= j < |a| ensures !OccursAt(d, "; ", j) {
      if j + 2 <= |d| {
        if j < 6 {
          assert d[j] == "INDEX:"[j];
          assert d[j..j + 2][0] == d[j];
        } else if j + 2 <= |a| {
          assert d[j..j + 2] == idx[j - 6..j - 4];
          assert !OccursAt(idx, "; ", j - 6);
        } else {
          assert d[j..j + 2][1] == d[j + 1] == ';';
        }
      }
    }
  }

  /** The timestamp half `TIMESTAMP:<text>` holds no `"; "` when the text has no `;`. */
  lemma {:induction false} TimestampHalfNoSeparator(tsText: string)
    requires ';' !in tsText
    ensures !Contains("TIMESTAMP:" + tsText, "; ")
  {
    var b := "TIMESTAMP:" + tsText;
    assert ';' !in "TIMESTAMP:";
    assert forall i :: 0 <= i < |b| ==> b[i] == (if i < 10 then "TIMESTAMP:"[i] else tsText[i - 10]);
    HeadAbsentNotContained(b, "; ");
  }

  /** A description whose timestamp text ends in a visible character is already stripped and
      is not the text `none`. */
  lemma {:induction false} DescriptionStripped(idx: string, tsText: string)
    requires tsText != [] && !IsSpace(tsText[|tsText| - 1])
    ensures Strip(JoinGpkg2Tif.Description(idx, Some(tsText))) == JoinGpkg2Tif.Description(idx, Some(tsText))
    ensures Lower(JoinGpkg2Tif.Description(idx, Some(tsText))) != "none"
  {
    var d := JoinGpkg2Tif.Description(idx, Some(tsText));
    assert d[0] == 'I';
    assert d[|d| - 1] == tsText[|tsText| - 1];
    StripUnchanged(d);
    assert |Lower(d)| != |"none"|;
  }

  /** `strptime` of the timestamp written for the year digits `y`: the last second of that
      year, or a ValueError for year `0000`, which no `datetime` can hold. */
  lemma {:induction false} StrptimeOfYearEnd(y: string)
    requires |y| == 4 && AllDigits(y)
    ensures DigitsValue(y) >= 1 ==> Strptime(y + JoinGpkg2Tif.YearEnd) == Ok(YearEndTimestamp(y))
    ensures DigitsValue(y) == 0 ==> Strptime(y + JoinGpkg2Tif.YearEnd).Err?
  {
    var s, t := y + JoinGpkg2Tif.YearEnd, YearEndTimestamp(y);
    FieldsOfYearEnd(y);
    ValidYearEnd(t);
    if t.year >= 1 {
      StrptimeOfFields(s, t);
    } else {
      assert Fields(s) == Some(t) && PatternRanges(t) && !Valid(t);
    }
  }

  /** The last second of a year is a valid `datetime` exactly for the years 1 to 9999. */
  lemma {:induction false} ValidYearEnd(t: DateTime)
    requires t.month == 12 && t.day == 31 && t.hour == 23 && t.minute == 59 && t.second == 59
    ensures PatternRanges(t)
    ensures Valid(t) <==> 1 <= t.year <= 9999
  {
    assert DaysInMonth(t.year, 12) == 31;
  }

  lemma {:induction false} FieldsOfYearEnd(y: string)
    requires |y| == 4 && AllDigits(y)
    ensures Fields(y + JoinGpkg2Tif.YearEnd) == Some(YearEndTimestamp(y))
  {
    var t := YearEndTimestamp(y);
    YearEndIsAfterYear(t);
    FieldsOfYearDigits(y, t);
  }

  /** The fixed text after the year is the timestamp's fields as `strftime` pads them. */
  lemma {:induction false} YearEndIsAfterYear(t: DateTime)
    requires t.month == 12 && t.day == 31 && t.hour == 23 && t.minute == 59 && t.second == 59
    ensures AfterYear(t) == JoinGpkg2Tif.YearEnd
  {
    assert Pad2(12) == "12";
    assert Pad2(31) == "31";
    assert Pad2(23) == "23";
    assert Pad2(59) == "59";
  }

  /** The round trip: the statistics step reads back the index name and the year of a
      description written with a timestamp from the year digits `y`, and records the case study
      and habitat it was given; year `0000` makes it raise a ValueError instead. */
  lemma {:induction false} StatsOfWrittenDescription(idx: string, y: string, inputTif: string, caseStudy: string,
                                                     xmlHabitat: Option<string>)
    requires ':' !in idx && !Contains(idx, "; ")
    requires |y| == 4 && AllDigits(y)
    ensures DigitsValue(y) >= 1 ==>
      PostProc.StatsMetadata(Some(JoinGpkg2Tif.Description(idx, Some(y + JoinGpkg2Tif.YearEnd))), inputTif, caseStudy, xmlHabitat)
        == Ok(PostProc.StatsKeys(Some(caseStudy), xmlHabitat, idx, PostProc.YearNumber(DigitsValue(y))))
    ensures DigitsValue(y) == 0 ==>
      PostProc.StatsMetadata(Some(JoinGpkg2Tif.Description(idx, Some(y + JoinGpkg2Tif.YearEnd))), inputTif, caseStudy, xmlHabitat).Err?
  {
    var ts := y + JoinGpkg2Tif.YearEnd;
    var d := JoinGpkg2Tif.Description(idx, Some(ts));
    assert ';' !in JoinGpkg2Tif.YearEnd;
    assert ts[0] == y[0] && ts[|ts| - 1] == '9';
    StripUnchanged(ts);
    ParseOfDescription(idx, ts);
    DescriptionStripped(idx, ts);
    StrptimeOfYearEnd(y);
  }

  /** A field rasterised without a timestamp gets the description `...; TIMESTAMP:None`,
      which the statistics step rejects with a ValueError. */
  lemma {:induction false} StatsOfUntimedDescription(idx: string, inputTif: string, caseStudy: string,
                                                     xmlHabitat: Option<string>)
    requires ':' !in idx && !Contains(idx, "; ")
    ensures PostProc.StatsMetadata(Some(JoinGpkg2Tif.Description(idx, None)), inputTif, caseStudy, xmlHabitat).Err?
  {
    var d := JoinGpkg2Tif.Description(idx, None);
    assert d == JoinGpkg2Tif.Description(idx, Some("None"));
    assert ';' !in "None";
    StripUnchanged("None");
    ParseOfDescription(idx, "None");
    DescriptionStripped(idx, "None");
    assert !AllDigits("None"[..4]) by { assert !IsDigit("None"[0]); }
    assert Fields("None").None?;
  }

  /** End to end: whatever timestamp `extract_timestamp_xml` found, or none, the description
      written for a field whose index name has no `:` and no `"; "` reads back with that index
      name whenever it reads back at all, and then with a year from 1 to 9999. */
  lemma {:induction false} RasterDescriptionRoundTrip(field: string, current: seq<string>, parent: seq<string>,
                                                      inputTif: string, caseStudy: string, xmlHabitat: Option<string>)
    requires ':' !in JoinGpkg2Tif.IndexName(field) && !Contains(JoinGpkg2Tif.IndexName(field), "; ")
    ensures var ts := JoinGpkg2Tif.ExtractTimestampXml(current, parent);
            var r := PostProc.StatsMetadata(Some(JoinGpkg2Tif.Description(JoinGpkg2Tif.IndexName(field), ts)),
                                            inputTif, caseStudy, xmlHabitat);
            (ts.None? ==> r.Err?) &&
            (r.Ok? ==> r.value.metric == JoinGpkg2Tif.IndexName(field) && r.value.year.YearNumber?
                       && 1 <= r.value.year.n <= 9999)
  {
    var idx := JoinGpkg2Tif.IndexName(field);
    var ts := JoinGpkg2Tif.ExtractTimestampXml(current, parent);
    match ts
    case None => StatsOfUntimedDescription(idx, inputTif, caseStudy, xmlHabitat);
    case Some(text) =>
      var y :| |y| == 4 && AllDigits(y) && text == y + JoinGpkg2Tif.YearEnd;
      StatsOfWrittenDescription(idx, y, inputTif, caseStudy, xmlHabitat);
  }
}
