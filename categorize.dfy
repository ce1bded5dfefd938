/**
 * The two lookup tables that turn an hour of the day and a weekday index
 * into the textual categories used for grouping traffic volume.
 */
module Categorize {

  import opened Wrappers

  /** The six time-of-day labels, in bucket order starting at 01:00. */
  const HourLabels: seq<string> :=
    ["Late Night", "Early Morning", "Morning", "Afternoon", "Evening", "Night"]

  /** Weekday names indexed the pandas way: 0 is Monday, 6 is Sunday. */
  const DayNames: seq<string> :=
    ["Monday", "Tuesday", "Wednesday", "Thursday", "Friday", "Saturday", "Sunday"]

  /**
   * Time-of-day label of an hour. The branches list four hours each and
   * there is no final `else`: an hour outside 0..23 gets no label.
   */
  function CategorizeHour(hour: int): (category: Option<string>)
    ensures category.Some? <==> 0 <= hour < 24
    ensures category.Some? ==> category.value in HourLabels
  {
    if hour in [1, 2, 3, 4] then Some("Late Night")
    else if hour in [5, 6, 7, 8] then Some("Early Morning")
    else if hour in [9, 10, 11, 12] then Some("Morning")
    else if hour in [13, 14, 15, 16] then Some("Afternoon")
    else if hour in [17, 18, 19, 20] then Some("Evening")
    else if hour in [21, 22, 23, 0] then Some("Night")
    else None
  }

  /**
   * Reference definition of the buckets: consecutive blocks of four hours
   * starting at 01:00, so that 21, 22, 23 and 0 share the last block.
   */
  function HourBucket(hour: int): (b: nat)
    requires 0 <= hour < 24
    ensures b < |HourLabels|
  {
    ((hour + 23) % 24) / 4
  }

  /** Every hour of the day carries the label of its four-hour block. */
  lemma CategorizeHourByBucket(hour: int)
    requires 0 <= hour < 24
    ensures CategorizeHour(hour) == Some(HourLabels[HourBucket(hour)])
  {
  }

  /** The six labels are pairwise different. */
  lemma HourLabelsDistinct()
    ensures forall i, j :: 0 <= i < j < |HourLabels| ==> HourLabels[i] != HourLabels[j]
  {
  }

  /**
   * The buckets partition 0..23: each label is produced by exactly the
   * hours of its block and by no other integer.
   */
  lemma HourLabelPreimages(hour: int)
    ensures CategorizeHour(hour) == Some("Late Night") <==> 1 <= hour <= 4
    ensures CategorizeHour(hour) == Some("Early Morning") <==> 5 <= hour <= 8
    ensures CategorizeHour(hour) == Some("Morning") <==> 9 <= hour <= 12
    ensures CategorizeHour(hour) == Some("Afternoon") <==> 13 <= hour <= 16
    ensures CategorizeHour(hour) == Some("Evening") <==> 17 <= hour <= 20
    ensures CategorizeHour(hour) == Some("Night") <==> hour == 0 || 21 <= hour <= 23
  {
  }

  /**
   * Weekday name of a weekday index. Only 0..5 are matched; everything
   * else, 6 and every out-of-range integer alike, falls through to Sunday.
   */
  function CategorizeDay(day: int): (name: string)
    ensures name in DayNames
    ensures 0 <= day <= 5 ==> name == DayNames[day]
    ensures (day < 0 || 5 < day) ==> name == "Sunday"
  {
    if day == 0 then "Monday"
    else if day == 1 then "Tuesday"
    else if day == 2 then "Wednesday"
    else if day == 3 then "Thursday"
    else if day == 4 then "Friday"
    else if day == 5 then "Saturday"
    else "Sunday"
  }

  /**
   * On the weekday indices pandas produces, the categoriser is a bijection
   * onto the seven names.
   */
  lemma CategorizeDayOnWeek(a: int, b: int)
    requires 0 <= a < 7 && 0 <= b < 7
    ensures CategorizeDay(a) == DayNames[a]
    ensures CategorizeDay(a) == CategorizeDay(b) <==> a == b
  {
  }
}
