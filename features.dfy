/**
 * Deriving the calendar and categorical columns of the traffic table:
 * `Year`, `Month`, `Day`, `Weekday`, `Hour`, then `categorized_hour` and
 * `categorized_weekday`, on a copy of the table.
 */
module Features {

  import opened Wrappers
  import opened Traffic
  import opened Categorize

  /**
   * The fields pandas' `.dt` accessors extract from a timestamp; the
   * calendar computation itself is a parameter of the model.
   */
  datatype Calendar = Calendar(year: int, month: int, day: int, weekday: int, hour: int)

  /** A row of the derived table: the cleaned record and its new columns. */
  datatype FeatureRow = FeatureRow(
    record: Record,
    when: Calendar,
    categorizedHour: Option<string>,
    categorizedWeekday: string)

  /** The two categorical columns agree with the row's `Hour` and `Weekday`. */
  predicate Categorized(row: FeatureRow)
  {
    row.categorizedHour == CategorizeHour(row.when.hour) &&
    row.categorizedWeekday == CategorizeDay(row.when.weekday)
  }

  /**
   * `parse_datetime`: one output row per input row, in order, carrying the
   * input record unchanged, its calendar fields and their two categories.
   * The input table is only read.
   */
  method ParseDatetime(df: array<Record>, calendar: Timestamp -> Calendar)
    returns (featured: seq<FeatureRow>)
    ensures |featured| == df.Length
    ensures forall i :: 0 <= i < df.Length ==>
      featured[i].record == df[i] && featured[i].when == calendar(df[i].dateTime)
    ensures forall i :: 0 <= i < |featured| ==> Categorized(featured[i])
  {
    var copy := df[..];
    featured := [];
    for i := 0 to |copy|
      invariant |featured| == i
      invariant forall k :: 0 <= k < i ==>
        featured[k].record == copy[k] && featured[k].when == calendar(copy[k].dateTime)
      invariant forall k :: 0 <= k < i ==> Categorized(featured[k])
    {
      var when := calendar(copy[i].dateTime);
      featured := featured + [FeatureRow(copy[i], when, CategorizeHour(when.hour), CategorizeDay(when.weekday))];
    }
  }

  /**
   * For rows whose calendar fields are in pandas' ranges, both categories
   * are present and are the expected bucket label and weekday name.
   */
  lemma CategorizedInRange(row: FeatureRow)
    requires Categorized(row)
    requires 0 <= row.when.hour < 24 && 0 <= row.when.weekday < 7
    ensures row.categorizedHour == Some(HourLabels[HourBucket(row.when.hour)])
    ensures row.categorizedWeekday == DayNames[row.when.weekday]
  {
    CategorizeHourByBucket(row.when.hour);
    CategorizeDayOnWeek(row.when.weekday, row.when.weekday);
  }
}
