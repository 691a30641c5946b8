/**
 * Per-user configuration: a union keyed by `id`, "metrics" or "summaries".
 * A value whose id is neither is representable (the validator rejects it).
 * The `value` object is serialised to JSON text by both database adapters.
 */
module ConfigTypes {
  import opened Wrappers
  import opened Json

  datatype MetricSetting = MetricSetting(labelText: string, priority: int)

  /** `Object.entries` of a metrics configuration's value, in property order. */
  type MetricEntries = seq<(string, MetricSetting)>

  datatype Configuration =
    | MetricsConfiguration(metrics: MetricEntries)
    | SummaryConfiguration(showMetricSummary: seq<string>)
    | OtherConfiguration(otherId: string, otherValue: Json)

  function Id(c: Configuration): string {
    match c
    case MetricsConfiguration(_) => "metrics"
    case SummaryConfiguration(_) => "summaries"
    case OtherConfiguration(id, _) => id
  }

  function EncodeSetting(s: MetricSetting): Json {
    JObject([("label", JString(s.labelText)), ("priority", JNumber(s.priority))])
  }

  function DecodeSetting(j: Json): (r: Option<MetricSetting>)
    ensures forall s :: j == EncodeSetting(s) ==> r == Some(s)
  {
    match j
    case JObject(fs) =>
      if |fs| == 2 && fs[0].0 == "label" && fs[0].1.JString? && fs[1].0 == "priority" && fs[1].1.JNumber?
      then Some(MetricSetting(fs[0].1.s, fs[1].1.n))
      else None
    case _ => None
  }

  function EncodeEntries(es: MetricEntries): (fs: seq<(string, Json)>)
    ensures |fs| == |es|
  {
    if es == [] then [] else [(es[0].0, EncodeSetting(es[0].1))] + EncodeEntries(es[1..])
  }

  function DecodeEntries(fs: seq<(string, Json)>): (r: Option<MetricEntries>)
    ensures r.Some? ==> |r.value| == |fs|
  {
    if fs == [] then Some([])
    else match (DecodeSetting(fs[0].1), DecodeEntries(fs[1..]))
      case (Some(s), Some(rest)) => Some([(fs[0].0, s)] + rest)
      case _ => None
  }

  lemma {:induction false} EntriesRoundTrip(es: MetricEntries)
    ensures DecodeEntries(EncodeEntries(es)) == Some(es)
  {
    if es != [] {
      EntriesRoundTrip(es[1..]);
      assert EncodeEntries(es)[1..] == EncodeEntries(es[1..]);
      assert [es[0]] + es[1..] == es;
    }
  }

  /** `JSON.stringify(configuration.value)`. */
  function EncodeValue(c: Configuration): Json {
    match c
    case MetricsConfiguration(es) => JObject(EncodeEntries(es))
    case SummaryConfiguration(keys) => JObject([("showMetricSummary", JArray(EncodeStrings(keys)))])
    case OtherConfiguration(_, v) => v
  }

  /** `{ id, value: JSON.parse(text) }`: the variant is chosen by the stored id. */
  function DecodeConfiguration(id: string, j: Json): Option<Configuration> {
    if id == "metrics" then
      match j
      case JObject(fs) =>
        (match DecodeEntries(fs) case Some(es) => Some(MetricsConfiguration(es)) case None => None)
      case _ => None
    else if id == "summaries" then
      match j
      case JObject(fs) =>
        if |fs| == 1 && fs[0].0 == "showMetricSummary" && fs[0].1.JArray? then
          match DecodeStrings(fs[0].1.items)
          case Some(keys) => Some(SummaryConfiguration(keys))
          case None => None
        else None
      case _ => None
    else Some(OtherConfiguration(id, j))
  }

  /** Decoding the stored id and text gives back the configuration that was encoded. */
  lemma ConfigurationRoundTrip(c: Configuration)
    requires c.OtherConfiguration? ==> Id(c) !in {"metrics", "summaries"}
    ensures DecodeConfiguration(Id(c), EncodeValue(c)) == Some(c)
  {
    match c
    case MetricsConfiguration(es) => EntriesRoundTrip(es);
    case SummaryConfiguration(keys) => StringsRoundTrip(keys);
    case OtherConfiguration(_, _) =>
  }
}
