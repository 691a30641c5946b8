/**
 * The food-log data shapes. Times are integer milliseconds since the epoch
 * (`Date.getTime()`); a metric value is a number or something `isNaN` holds
 * of; metrics and labels keep the order of the JavaScript object or array.
 */
module FoodLogTypes {
  import opened Wrappers

  /** A metric value as far as `isNaN` can tell: a number, or not a number. */
  datatype MetricValue = Number(n: int) | NotANumber

  /** `Object.entries` of a metrics object, in property order. */
  type Metrics = seq<(string, MetricValue)>

  datatype TimeRange = TimeRange(start: int, end: int)

  /** A stored food-log entry. */
  datatype FoodLogEntry = FoodLogEntry(
    id: string,
    name: string,
    labels: seq<string>,
    time: TimeRange,
    metrics: Metrics)

  /** A `time` object whose bounds may be missing at run time. */
  datatype PartialTime = PartialTime(start: Option<int>, end: Option<int>)

  /**
   * The body of a create request. Every property may be missing at run time,
   * and an `id` may be present although the type does not declare one.
   */
  datatype CreateFoodLogEntry = CreateFoodLogEntry(
    id: Option<string>,
    name: Option<string>,
    labels: Option<seq<string>>,
    time: Option<PartialTime>,
    metrics: Option<Metrics>)

  /** The body of an edit request: an id and any subset of the other fields. */
  datatype EditFoodLogEntry = EditFoodLogEntry(
    id: Option<string>,
    name: Option<string>,
    labels: Option<seq<string>>,
    time: Option<PartialTime>,
    metrics: Option<Metrics>)

  /** `Object.values(metrics).some(isNaN)`. */
  predicate SomeNaN(m: Metrics) {
    exists i :: 0 <= i < |m| && m[i].1.NotANumber?
  }

  /** A time object with both bounds present. */
  predicate Complete(t: PartialTime) {
    t.start.Some? && t.end.Some?
  }

  function ToRange(t: PartialTime): (r: TimeRange)
    requires Complete(t)
    ensures r.start == t.start.value && r.end == t.end.value
  {
    TimeRange(t.start.value, t.end.value)
  }

  /** The ids of a sequence of entries, in order. */
  function Ids(s: seq<FoodLogEntry>): (ids: seq<string>)
    ensures |ids| == |s|
    ensures forall i :: 0 <= i < |s| ==> ids[i] == s[i].id
  {
    if s == [] then [] else [s[0].id] + Ids(s[1..])
  }

  /** Entries whose interval lies inside [start, end] (the in-memory query). */
  predicate ContainedIn(e: FoodLogEntry, start: int, end: int) {
    e.time.start >= start && e.time.end <= end
  }

  /** Entries whose interval meets [start, end] (the database queries). */
  predicate Overlaps(e: FoodLogEntry, start: int, end: int) {
    e.time.start <= end && e.time.end >= start
  }

  /** A contained entry with a well-ordered interval always overlaps the window. */
  lemma ContainedImpliesOverlaps(e: FoodLogEntry, start: int, end: int)
    requires e.time.start <= e.time.end
    requires ContainedIn(e, start, end)
    ensures Overlaps(e, start, end)
  {
  }
}
