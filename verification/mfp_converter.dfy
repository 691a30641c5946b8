/**
 * The converter from a MyFitnessPal nutrition summary to the export format:
 * each summary record (a date, a meal name and its calories) becomes one log
 * whose times come from a table of six known meals, or from a midday default.
 * Times are ISO 8601 strings: the record's date followed by a clock suffix
 * such as `T08:00:00.000Z`. The fresh UUIDs the script draws are the `ids`
 * argument, one per record.
 */
module MfpConverter {
  import opened Wrappers
  import opened ExportCsv

  /** One parsed summary line; only the three columns the converter reads. */
  datatype MfpRecord = MfpRecord(date: string, meal: string, calories: string)

  const DefaultStart: string := "T12:15:00.000Z"
  const DefaultEnd: string := "T12:30:00.000Z"

  /** `knownMealTimes`: the start and end suffix of each known meal. */
  function KnownMealTimes(meal: string): Option<(string, string)> {
    if meal == "Breakfast" then Some(("T08:00:00.000Z", "T08:15:00.000Z"))
    else if meal == "Mid-morning Snacks" then Some(("T10:00:00.000Z", "T10:15:00.000Z"))
    else if meal == "Lunch" then Some(("T12:00:00.000Z", "T12:15:00.000Z"))
    else if meal == "Mid Afternoon Snacks" then Some(("T14:00:00.000Z", "T14:15:00.000Z"))
    else if meal == "Dinner" then Some(("T18:00:00.000Z", "T18:15:00.000Z"))
    else if meal == "Evening Snacks" then Some(("T20:00:00.000Z", "T20:15:00.000Z"))
    else None
  }

  const KnownMeals: set<string> :=
    {"Breakfast", "Mid-morning Snacks", "Lunch", "Mid Afternoon Snacks", "Dinner", "Evening Snacks"}

  /** The table has an entry for exactly the six known meals. */
  lemma KnownMealsExact(meal: string)
    ensures KnownMealTimes(meal).Some? <==> meal in KnownMeals
  {
  }

  /** The suffix pair used for a meal: its table entry, or the default. */
  function MealTimes(meal: string): (string, string) {
    match KnownMealTimes(meal)
    case Some(times) => times
    case None => (DefaultStart, DefaultEnd)
  }

  const MetricsPrefix: string := "{\"calories\":"

  /** `conversionFunction` with `id` as the UUID it draws. */
  function Convert(input: MfpRecord, id: string): (log: LogRow)
    ensures log.id == id && log.name == input.meal && log.labels == ""
    ensures |log.timeStart| >= |input.date| && |log.timeEnd| >= |input.date|
    ensures log.timeStart[..|input.date|] == input.date && log.timeEnd[..|input.date|] == input.date
  {
    var times := MealTimes(input.meal);
    LogRow(id, input.meal, "", input.date + times.0, input.date + times.1, MetricsPrefix + input.calories + "}")
  }

  /** The calories text read back out of a `{"calories":…}` metrics cell. */
  function CaloriesOf(metrics: string): string
    requires |metrics| > |MetricsPrefix|
  {
    metrics[|MetricsPrefix|..|metrics| - 1]
  }

  /** The metrics cell holds the record's calories, verbatim, under the one key `calories`. */
  lemma CaloriesRoundTrip(input: MfpRecord, id: string)
    ensures var m := Convert(input, id).metrics;
            |m| > |MetricsPrefix| && m[..|MetricsPrefix|] == MetricsPrefix && m[|m| - 1] == '}'
            && CaloriesOf(m) == input.calories
  {
    var m := Convert(input, id).metrics;
    assert m == MetricsPrefix + input.calories + "}";
    assert m[|MetricsPrefix|..|m| - 1] == input.calories;
  }

  /** A known meal's times are the record's date followed by the table's suffixes. */
  lemma KnownMealUsesTable(input: MfpRecord, id: string)
    requires input.meal in KnownMeals
    ensures var log := Convert(input, id);
            && log.timeStart == input.date + KnownMealTimes(input.meal).value.0
            && log.timeEnd == input.date + KnownMealTimes(input.meal).value.1
  {
  }

  /** Any other meal name gets the midday default. */
  lemma UnknownMealUsesDefault(input: MfpRecord, id: string)
    requires input.meal !in KnownMeals
    ensures var log := Convert(input, id);
            log.timeStart == input.date + "T12:15:00.000Z" && log.timeEnd == input.date + "T12:30:00.000Z"
  {
  }

  predicate IsDigit(c: char) {
    '0' <= c <= '9'
  }

  function DigitValue(c: char): nat
    requires IsDigit(c)
  {
    (c - '0') as nat
  }

  /** A clock suffix `Thh:mm:00.000Z` with a minute field below 60. */
  predicate IsClockSuffix(s: string) {
    && |s| == 14 && s[0] == 'T' && s[3] == ':'
    && s[6] == ':' && s[7] == '0' && s[8] == '0' && s[9] == '.' && s[10] == '0' && s[11] == '0' && s[12] == '0' && s[13] == 'Z'
    && IsDigit(s[1]) && IsDigit(s[2]) && '0' <= s[4] <= '5' && IsDigit(s[5])
  }

  /** The minutes after midnight a clock suffix denotes. */
  function ClockMinutes(s: string): (m: nat)
    requires IsClockSuffix(s)
    ensures m < 100 * 60
  {
    (10 * DigitValue(s[1]) + DigitValue(s[2])) * 60 + 10 * DigitValue(s[4]) + DigitValue(s[5])
  }

  /** Strict lexicographic order on strings, the order ISO 8601 timestamps sort in. */
  predicate LexLess(a: string, b: string)
    decreases |a|
  {
    |b| > 0 && (|a| == 0 || a[0] < b[0] || (a[0] == b[0] && LexLess(a[1..], b[1..])))
  }

  /** Two strings that agree before position `k` and differ there are ordered by that character. */
  lemma {:induction false} FirstDifference(a: string, b: string, k: nat)
    requires k < |a| && k < |b| && a[..k] == b[..k] && a[k] < b[k]
    ensures LexLess(a, b)
  {
    if k > 0 {
      assert a[0] == a[..k][0] == b[..k][0] == b[0];
      assert a[1..][..k - 1] == a[..k][1..] == b[..k][1..] == b[1..][..k - 1];
      FirstDifference(a[1..], b[1..], k - 1);
    }
  }

  /** A common prefix does not change the order of two strings. */
  lemma {:induction false} CommonPrefixKeepsOrder(p: string, a: string, b: string)
    requires LexLess(a, b)
    ensures LexLess(p + a, p + b)
  {
    if p != [] {
      assert (p + a)[0] == p[0] == (p + b)[0];
      assert (p + a)[1..] == p[1..] + a;
      assert (p + b)[1..] == p[1..] + b;
      CommonPrefixKeepsOrder(p[1..], a, b);
    } else {
      assert p + a == a && p + b == b;
    }
  }

  /** On clock suffixes the lexicographic order is the order of the times they denote. */
  lemma ClockOrderIsTimeOrder(a: string, b: string)
    requires IsClockSuffix(a) && IsClockSuffix(b) && ClockMinutes(a) < ClockMinutes(b)
    ensures LexLess(a, b)
  {
    assert a[..1] == b[..1] == "T";
    if a[1] != b[1] {
      FirstDifference(a, b, 1);
    } else if a[2] != b[2] {
      assert a[..2] == b[..2];
      FirstDifference(a, b, 2);
    } else if a[4] != b[4] {
      assert a[..4] == b[..4];
      FirstDifference(a, b, 4);
    } else {
      assert a[..5] == b[..5];
      FirstDifference(a, b, 5);
    }
  }

  /** `end` is a clock time a quarter of an hour after the clock time `start`. */
  predicate QuarterHourApart(start: string, end: string) {
    IsClockSuffix(start) && IsClockSuffix(end) && ClockMinutes(end) == ClockMinutes(start) + 15
  }

  // The seven suffix pairs of the script, one lemma each so that each literal is checked on its own.
  lemma BreakfastQuarterHour() ensures QuarterHourApart("T08:00:00.000Z", "T08:15:00.000Z") {}
  lemma MidMorningSnacksQuarterHour() ensures QuarterHourApart("T10:00:00.000Z", "T10:15:00.000Z") {}
  lemma LunchQuarterHour() ensures QuarterHourApart("T12:00:00.000Z", "T12:15:00.000Z") {}
  lemma MidAfternoonSnacksQuarterHour() ensures QuarterHourApart("T14:00:00.000Z", "T14:15:00.000Z") {}
  lemma DinnerQuarterHour() ensures QuarterHourApart("T18:00:00.000Z", "T18:15:00.000Z") {}
  lemma EveningSnacksQuarterHour() ensures QuarterHourApart("T20:00:00.000Z", "T20:15:00.000Z") {}
  lemma DefaultQuarterHour() ensures QuarterHourApart(DefaultStart, DefaultEnd) {}

  /** Every suffix pair the converter can use is a pair of clock times a quarter of an hour apart. */
  lemma MealTimesQuarterHour(meal: string)
    ensures QuarterHourApart(MealTimes(meal).0, MealTimes(meal).1)
  {
    BreakfastQuarterHour();
    MidMorningSnacksQuarterHour();
    LunchQuarterHour();
    MidAfternoonSnacksQuarterHour();
    DinnerQuarterHour();
    EveningSnacksQuarterHour();
    DefaultQuarterHour();
  }

  /**
   * Every meal's log ends a quarter of an hour after it starts, on the
   * record's own date, so its end never precedes its start.
   */
  lemma ConvertedTimesOrdered(input: MfpRecord, id: string)
    ensures var log := Convert(input, id);
            var n := |input.date|;
            && IsClockSuffix(log.timeStart[n..]) && IsClockSuffix(log.timeEnd[n..])
            && ClockMinutes(log.timeEnd[n..]) == ClockMinutes(log.timeStart[n..]) + 15
            && LexLess(log.timeStart, log.timeEnd)
  {
    var times := MealTimes(input.meal);
    var log := Convert(input, id);
    assert log.timeStart[|input.date|..] == times.0 && log.timeEnd[|input.date|..] == times.1;
    MealTimesQuarterHour(input.meal);
    ClockOrderIsTimeOrder(times.0, times.1);
    CommonPrefixKeepsOrder(input.date, times.0, times.1);
  }

  /** `prsd.map(conversionFunction)`: one log per record, in order, the `k`th drawing `ids[k]`. */
  function ConvertAll(records: seq<MfpRecord>, ids: seq<string>): (logs: seq<LogRow>)
    requires |ids| == |records|
    ensures |logs| == |records|
    ensures forall k :: 0 <= k < |records| ==> logs[k] == Convert(records[k], ids[k])
  {
    if records == [] then [] else [Convert(records[0], ids[0])] + ConvertAll(records[1..], ids[1..])
  }

  /** The converted file: the header, then one six-cell line per record naming its meal and date. */
  function ConvertedFile(records: seq<MfpRecord>, ids: seq<string>): (file: seq<seq<string>>)
    requires |ids| == |records|
    ensures |file| == 1 + |records| && file[0] == ExportHeader
    ensures forall k :: 1 <= k < |file| ==>
              |file[k]| == |ExportHeader| && file[k][0] == ids[k - 1] && file[k][1] == records[k - 1].meal
              && file[k][2] == "" && |file[k][3]| >= |records[k - 1].date|
              && file[k][3][..|records[k - 1].date|] == records[k - 1].date
  {
    var file := [ExportHeader] + ExportRows(ConvertAll(records, ids));
    ConvertedLines(records, ids, file);
    file
  }

  /** The lines after the header name each record's id, meal and date, with empty labels. */
  lemma ConvertedLines(records: seq<MfpRecord>, ids: seq<string>, file: seq<seq<string>>)
    requires |ids| == |records| && file == [ExportHeader] + ExportRows(ConvertAll(records, ids))
    ensures forall k :: 1 <= k < |file| ==>
              |file[k]| == |ExportHeader| && file[k][0] == ids[k - 1] && file[k][1] == records[k - 1].meal
              && file[k][2] == "" && |file[k][3]| >= |records[k - 1].date|
              && file[k][3][..|records[k - 1].date|] == records[k - 1].date
  {
    var logs := ConvertAll(records, ids);
    var body := ExportRows(logs);
    forall k | 1 <= k < |file|
      ensures |file[k]| == |ExportHeader| && file[k][0] == ids[k - 1] && file[k][1] == records[k - 1].meal
              && file[k][2] == "" && |file[k][3]| >= |records[k - 1].date|
              && file[k][3][..|records[k - 1].date|] == records[k - 1].date
    {
      assert file[k] == body[k - 1];
      assert logs[k - 1] == Convert(records[k - 1], ids[k - 1]);
      ConvertedLine(records[k - 1], ids[k - 1]);
    }
  }

  /** The export line of one converted record: its id, meal, empty labels and date. */
  lemma ConvertedLine(r: MfpRecord, id: string)
    ensures var line := ExportRow(Convert(r, id));
            && |line| == |ExportHeader| && line[0] == id && line[1] == r.meal && line[2] == ""
            && |line[3]| >= |r.date| && line[3][..|r.date|] == r.date
  {
  }

  /** Each line after the header is the export line of its record's conversion, so every cell follows the record. */
  lemma ConvertedFileCells(records: seq<MfpRecord>, ids: seq<string>)
    requires |ids| == |records|
    ensures forall k :: 1 <= k < |records| + 1 ==>
              ConvertedFile(records, ids)[k] == ExportRow(Convert(records[k - 1], ids[k - 1]))
  {
    var logs := ConvertAll(records, ids);
    var body := ExportRows(logs);
    assert ConvertedFile(records, ids) == [ExportHeader] + body;
    assert forall k :: 0 <= k < |logs| ==> body[k] == ExportRow(Convert(records[k], ids[k]));
  }
}
