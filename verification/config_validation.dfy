/**
 * `isValidConfigurationItem` and its two helpers. The metrics check walks the
 * entries with `findIndex`, collecting labels and priorities into two sets and
 * stopping at the first key that fails the key pattern or the first label or
 * priority already seen. The key pattern `([a-z]|-)*` has no anchors and may
 * match the empty string, so every key matches it.
 */
module ConfigValidation {
  import opened Wrappers
  import opened StorageErrors
  import opened ConfigTypes

  predicate IsKeyChar(c: char) {
    ('a' <= c <= 'z') || c == '-'
  }

  predicate AllKeyChars(s: string) {
    forall k :: 0 <= k < |s| ==> IsKeyChar(s[k])
  }

  /** The key pattern matches somewhere in `key`: some substring consists of key characters. */
  predicate MatchesKeyPattern(key: string) {
    exists i, j :: 0 <= i <= j <= |key| && AllKeyChars(key[i..j])
  }

  /** The pattern never rejects: the empty match at position 0 always exists. */
  lemma EveryKeyMatches(key: string)
    ensures MatchesKeyPattern(key)
  {
    assert AllKeyChars(key[0..0]);
  }

  predicate LabelsDistinct(es: MetricEntries) {
    forall i, j :: 0 <= i < |es| && 0 <= j < |es| && i != j ==> es[i].1.labelText != es[j].1.labelText
  }

  predicate PrioritiesDistinct(es: MetricEntries) {
    forall i, j :: 0 <= i < |es| && 0 <= j < |es| && i != j ==> es[i].1.priority != es[j].1.priority
  }

  /** What the metrics check accepts, stated without the walk: every key matches, no label and no priority repeats. */
  predicate ValidMetrics(es: MetricEntries) {
    && (forall i :: 0 <= i < |es| ==> MatchesKeyPattern(es[i].0))
    && LabelsDistinct(es)
    && PrioritiesDistinct(es)
  }

  /** `new Set(keys).size` */
  function Elements(keys: seq<string>): set<string> {
    set k | k in keys
  }

  predicate NoDuplicates(keys: seq<string>) {
    forall i, j :: 0 <= i < j < |keys| ==> keys[i] != keys[j]
  }

  /** `isValidSummary`: length equals the size of the set of keys, and every key matches. */
  predicate IsValidSummary(keys: seq<string>) {
    |keys| == |Elements(keys)| && forall i :: 0 <= i < |keys| ==> MatchesKeyPattern(keys[i])
  }

  /** `isValidConfigurationItem`: dispatch on the id; any other id is invalid. */
  predicate IsValidConfigurationItem(c: Configuration) {
    match c
    case MetricsConfiguration(es) => ValidMetrics(es)
    case SummaryConfiguration(keys) => IsValidSummary(keys)
    case OtherConfiguration(_, _) => false
  }

  /** Labels and priorities are pairwise distinct among the first `n` entries. */
  predicate DistinctUpTo(es: MetricEntries, n: nat)
    requires n <= |es|
  {
    forall i, j :: 0 <= i < n && 0 <= j < n && i != j ==>
      es[i].1.labelText != es[j].1.labelText && es[i].1.priority != es[j].1.priority
  }

  /**
   * `isValidMetrics`: the `findIndex` walk with its two sets. The result is
   * true exactly when labels and priorities are each pairwise distinct.
   */
  method IsValidMetrics(es: MetricEntries) returns (valid: bool)
    ensures valid == ValidMetrics(es)
    ensures valid <==> LabelsDistinct(es) && PrioritiesDistinct(es)
  {
    var labels: set<string> := {};
    var priorities: set<int> := {};
    var found := -1;
    var i := 0;
    while i < |es|
      invariant 0 <= i <= |es|
      invariant forall l :: l in labels <==> exists k :: 0 <= k < i && es[k].1.labelText == l
      invariant forall p :: p in priorities <==> exists k :: 0 <= k < i && es[k].1.priority == p
      invariant DistinctUpTo(es, i)
      invariant found == -1
      decreases |es| - i
    {
      var key, setting := es[i].0, es[i].1;
      if !MatchesKeyPattern(key) || setting.labelText in labels || setting.priority in priorities {
        found := i;
        break;
      }
      labels := labels + {setting.labelText};
      priorities := priorities + {setting.priority};
      i := i + 1;
    }
    valid := found == -1;
    MetricsValidIffDistinct(es);
    if !valid {
      EveryKeyMatches(es[i].0);
      ClashBreaksDistinctness(es, i);
    }
  }

  /** An entry whose label or priority already occurs earlier breaks distinctness. */
  lemma ClashBreaksDistinctness(es: MetricEntries, i: nat)
    requires i < |es|
    requires (exists k :: 0 <= k < i && es[k].1.labelText == es[i].1.labelText)
          || (exists k :: 0 <= k < i && es[k].1.priority == es[i].1.priority)
    ensures !(LabelsDistinct(es) && PrioritiesDistinct(es))
  {
  }

  /** The key-pattern conjunct of the metrics check is always true. */
  lemma MetricsValidIffDistinct(es: MetricEntries)
    ensures ValidMetrics(es) <==> LabelsDistinct(es) && PrioritiesDistinct(es)
  {
    forall i | 0 <= i < |es| ensures MatchesKeyPattern(es[i].0) {
      EveryKeyMatches(es[i].0);
    }
  }

  /** The same check reached through the dispatcher. */
  method CheckConfigurationItem(c: Configuration) returns (valid: bool)
    ensures valid == IsValidConfigurationItem(c)
  {
    match c
    case MetricsConfiguration(es) => valid := IsValidMetrics(es);
    case SummaryConfiguration(keys) => valid := IsValidSummary(keys);
    case OtherConfiguration(_, _) => valid := false;
  }

  /** An id other than "metrics" or "summaries" is invalid. */
  lemma UnknownIdInvalid(c: Configuration)
    requires Id(c) !in {"metrics", "summaries"}
    ensures !IsValidConfigurationItem(c)
  {
  }

  /** Two entries sharing a label, or sharing a priority, make a metrics configuration invalid. */
  lemma SharedLabelOrPriorityInvalid(es: MetricEntries, i: nat, j: nat)
    requires i < |es| && j < |es| && i != j
    requires es[i].1.labelText == es[j].1.labelText || es[i].1.priority == es[j].1.priority
    ensures !IsValidConfigurationItem(MetricsConfiguration(es))
  {
  }

  /** The empty metrics map is valid. */
  lemma EmptyMetricsValid()
    ensures IsValidConfigurationItem(MetricsConfiguration([]))
  {
  }

  /** Entry order is irrelevant: any reordering of a valid metrics configuration is valid. */
  lemma ReorderingKeepsValidity(es: MetricEntries, perm: seq<nat>)
    requires |perm| == |es|
    requires forall k :: 0 <= k < |perm| ==> perm[k] < |es|
    requires forall k, l :: 0 <= k < l < |perm| ==> perm[k] != perm[l]
    requires ValidMetrics(es)
    ensures ValidMetrics(seq(|es|, k requires 0 <= k < |es| => es[perm[k]]))
  {
    var rs := seq(|es|, k requires 0 <= k < |es| => es[perm[k]]);
    MetricsValidIffDistinct(es);
    MetricsValidIffDistinct(rs);
    forall k, l | 0 <= k < |rs| && 0 <= l < |rs| && k != l
      ensures rs[k].1.labelText != rs[l].1.labelText && rs[k].1.priority != rs[l].1.priority
    {
      assert perm[k] != perm[l] by {
        if k < l {} else {}
      }
    }
  }

  /** |elements| <= |sequence|. */
  lemma {:induction false} ElementsBound(keys: seq<string>)
    ensures |Elements(keys)| <= |keys|
  {
    if keys != [] {
      ElementsBound(keys[1..]);
      assert Elements(keys) == {keys[0]} + Elements(keys[1..]);
    }
  }

  /** A sequence is as long as its set of elements exactly when it has no duplicates. */
  lemma {:induction false} CardinalityIffNoDuplicates(keys: seq<string>)
    ensures |keys| == |Elements(keys)| <==> NoDuplicates(keys)
  {
    if keys != [] {
      var rest := keys[1..];
      CardinalityIffNoDuplicates(rest);
      ElementsBound(rest);
      assert Elements(keys) == {keys[0]} + Elements(rest);
      if keys[0] in rest {
        var j :| 0 <= j < |rest| && rest[j] == keys[0];
        assert keys[0] == keys[j + 1];
        assert Elements(keys) == Elements(rest);
      } else {
        assert |Elements(keys)| == |Elements(rest)| + 1;
        if NoDuplicates(rest) {
          forall i, j | 0 <= i < j < |keys| ensures keys[i] != keys[j] {
            if i > 0 { assert keys[i] == rest[i - 1] && keys[j] == rest[j - 1]; }
            else { assert keys[j] == rest[j - 1]; }
          }
        } else {
          var i, j :| 0 <= i < j < |rest| && rest[i] == rest[j];
          assert keys[i + 1] == keys[j + 1];
        }
      }
    }
  }

  /** A summaries configuration is valid exactly when `showMetricSummary` has no duplicates. */
  lemma SummaryValidIffNoDuplicates(keys: seq<string>)
    ensures IsValidConfigurationItem(SummaryConfiguration(keys)) <==> NoDuplicates(keys)
  {
    CardinalityIffNoDuplicates(keys);
    forall i | 0 <= i < |keys| ensures MatchesKeyPattern(keys[i]) {
      EveryKeyMatches(keys[i]);
    }
  }

  /** A user id JavaScript treats as false: missing or empty. */
  predicate FalsyUserId(userId: Option<string>) {
    userId.None? || userId.value == ""
  }

  /**
   * The two checks both configuration stores make before touching the
   * database, in their order: the user id first, then the configuration.
   */
  function StoreRejection(userId: Option<string>, c: Configuration): (r: Option<StorageError>)
    ensures r.None? <==> !FalsyUserId(userId) && IsValidConfigurationItem(c)
    ensures FalsyUserId(userId) ==> r == Some(ValidationError("Invalid user id"))
    ensures !FalsyUserId(userId) && !IsValidConfigurationItem(c) ==> r == Some(ValidationError("Error with Configuration"))
  {
    if FalsyUserId(userId) then Some(ValidationError("Invalid user id"))
    else if !IsValidConfigurationItem(c) then Some(ValidationError("Error with Configuration"))
    else None
  }

  /** An accepted configuration is a metrics or summaries one, so its id is one of the two known ids. */
  lemma AcceptedHasKnownId(userId: Option<string>, c: Configuration)
    requires StoreRejection(userId, c).None?
    ensures Id(c) in {"metrics", "summaries"} && !c.OtherConfiguration?
  {
  }
}
