/**
 * JSON text as the database columns hold it. `JSON.stringify` is modelled
 * as encoding into a JSON tree and `JSON.parse` as decoding from one; the
 * character-level syntax is not modelled. Decoding is partial: it accepts the
 * shapes this storage layer writes.
 */
module Json {
  import opened Wrappers

  datatype Json =
    | JNull
    | JNumber(n: int)
    | JString(s: string)
    | JArray(items: seq<Json>)
    | JObject(fields: seq<(string, Json)>)

  /** `JSON.stringify` of an array of strings. */
  function EncodeStrings(xs: seq<string>): (items: seq<Json>)
    ensures |items| == |xs|
  {
    if xs == [] then [] else [JString(xs[0])] + EncodeStrings(xs[1..])
  }

  /** `JSON.parse` of an array that should hold only strings. */
  function DecodeStrings(items: seq<Json>): (r: Option<seq<string>>)
    ensures r.Some? ==> |r.value| == |items|
  {
    if items == [] then Some([])
    else match items[0]
      case JString(s) =>
        (match DecodeStrings(items[1..])
         case Some(rest) => Some([s] + rest)
         case None => None)
      case _ => None
  }

  lemma {:induction false} StringsRoundTrip(xs: seq<string>)
    ensures DecodeStrings(EncodeStrings(xs)) == Some(xs)
  {
    if xs != [] {
      StringsRoundTrip(xs[1..]);
      assert EncodeStrings(xs)[1..] == EncodeStrings(xs[1..]);
      assert [xs[0]] + xs[1..] == xs;
    }
  }
}
