/**
 * The gates in front of every food-log write: `isValidCreateLogEntry` and
 * `isValidEditLogEntry`. The in-memory and Cassandra adapters carry private
 * copies of both functions with the same conjuncts; all three are modelled by
 * these two predicates.
 */
module FoodLogValidation {
  import opened Wrappers
  import opened FoodLogTypes

  /** A create entry: no id; name, labels, metrics and both time bounds present; no NaN metric; end >= start. */
  predicate IsValidCreateLogEntry(e: CreateFoodLogEntry) {
    && e.id.None?
    && e.name.Some?
    && e.labels.Some?
    && e.metrics.Some?
    && !SomeNaN(e.metrics.value)
    && e.time.Some?
    && e.time.value.start.Some?
    && e.time.value.end.Some?
    && e.time.value.end.value >= e.time.value.start.value
  }

  /** An edit entry: an id; metrics, when given, free of NaN; time, when given, complete and ordered. */
  predicate IsValidEditLogEntry(e: EditFoodLogEntry) {
    && e.id.Some?
    && (e.metrics.None? || !SomeNaN(e.metrics.value))
    && (e.time.None? ||
        (e.time.value.start.Some? && e.time.value.end.Some? &&
         e.time.value.end.value >= e.time.value.start.value))
  }

  /** The entry a valid create request describes, once given its id. */
  function EntryOf(e: CreateFoodLogEntry, id: string): (r: FoodLogEntry)
    requires IsValidCreateLogEntry(e)
    ensures r.id == id && r.name == e.name.value && r.labels == e.labels.value
    ensures r.metrics == e.metrics.value && r.time == ToRange(e.time.value)
    ensures r.time.start <= r.time.end && !SomeNaN(r.metrics)
  {
    FoodLogEntry(id, e.name.value, e.labels.value, ToRange(e.time.value), e.metrics.value)
  }

  /** Well-formedness of a stored entry: ordered interval, numeric metrics. */
  predicate WellFormed(e: FoodLogEntry) {
    e.time.start <= e.time.end && !SomeNaN(e.metrics)
  }

  /** A create entry carrying any id is rejected. */
  lemma CreateRejectsId(e: CreateFoodLogEntry)
    requires e.id.Some?
    ensures !IsValidCreateLogEntry(e)
  {
  }

  /** Missing name, labels, metrics, time or either bound is rejected. */
  lemma CreateRequiresAllFields(e: CreateFoodLogEntry)
    requires e.name.None? || e.labels.None? || e.metrics.None? || e.time.None?
             || (e.time.Some? && !Complete(e.time.value))
    ensures !IsValidCreateLogEntry(e)
  {
  }

  /** A NaN-like metric value anywhere rejects a create entry. */
  lemma CreateRejectsNaN(e: CreateFoodLogEntry, i: nat)
    requires e.metrics.Some? && i < |e.metrics.value| && e.metrics.value[i].1.NotANumber?
    ensures !IsValidCreateLogEntry(e)
  {
  }

  /** End before start is rejected; equal bounds are accepted. */
  lemma CreateTimeOrder(name: string, labels: seq<string>, m: Metrics, s: int, t: int)
    requires !SomeNaN(m)
    ensures IsValidCreateLogEntry(CreateFoodLogEntry(None, Some(name), Some(labels), Some(PartialTime(Some(s), Some(t))), Some(m)))
            <==> t >= s
  {
  }

  /** A valid create entry yields a well-formed stored entry. */
  lemma ValidCreateIsWellFormed(e: CreateFoodLogEntry, id: string)
    requires IsValidCreateLogEntry(e)
    ensures WellFormed(EntryOf(e, id))
  {
  }

  /** An edit without id is rejected; with id and nothing else it is accepted. */
  lemma EditNeedsOnlyId(e: EditFoodLogEntry)
    ensures e.id.None? ==> !IsValidEditLogEntry(e)
    ensures e.id.Some? && e.metrics.None? && e.time.None? ==> IsValidEditLogEntry(e)
  {
  }

  /** Supplied metrics must be NaN-free. */
  lemma EditRejectsNaN(e: EditFoodLogEntry, i: nat)
    requires e.metrics.Some? && i < |e.metrics.value| && e.metrics.value[i].1.NotANumber?
    ensures !IsValidEditLogEntry(e)
  {
  }

  /** Supplied time must have both bounds and end >= start. */
  lemma EditTimeRule(e: EditFoodLogEntry)
    requires e.time.Some?
    ensures IsValidEditLogEntry(e) ==> Complete(e.time.value) && e.time.value.end.value >= e.time.value.start.value
  {
  }

  /** The merge `{...prior, ...edit}`: every supplied field overrides, the rest stays. */
  function Merge(prior: FoodLogEntry, edit: EditFoodLogEntry): (r: FoodLogEntry)
    requires IsValidEditLogEntry(edit)
    ensures r.id == edit.id.value
    ensures r.name == edit.name.GetOr(prior.name)
    ensures r.labels == edit.labels.GetOr(prior.labels)
    ensures r.metrics == edit.metrics.GetOr(prior.metrics)
    ensures r.time == (if edit.time.Some? then ToRange(edit.time.value) else prior.time)
  {
    FoodLogEntry(
      edit.id.value,
      edit.name.GetOr(prior.name),
      edit.labels.GetOr(prior.labels),
      if edit.time.Some? then ToRange(edit.time.value) else prior.time,
      edit.metrics.GetOr(prior.metrics))
  }

  /** Merging a valid edit into a well-formed entry keeps it well-formed. */
  lemma MergePreservesWellFormed(prior: FoodLogEntry, edit: EditFoodLogEntry)
    requires WellFormed(prior) && IsValidEditLogEntry(edit)
    ensures WellFormed(Merge(prior, edit))
  {
  }
}
