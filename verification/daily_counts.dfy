/**
 * The daily-summary script: it folds the exported food-log records into
 * per-day metric totals, collects every metric name in the order first seen,
 * and writes one row per calendar day from the first recorded day to the
 * last. A record's day (the date part of its `timeStart`) is a day number,
 * so consecutive calendar dates are consecutive integers and the order of
 * "YYYY-MM-DD" strings is the order of the numbers.
 */
module DailyCounts {
  import opened Wrappers

  /** A parsed record: its day and the entries of its metrics object, in key order. */
  datatype DumpRecord = DumpRecord(day: int, metrics: seq<(string, int)>)

  /** A data row: the day and one count per known metric. */
  datatype DayRow = DayRow(day: int, counts: seq<int>)

  datatype Summary = Summary(header: seq<string>, rows: seq<DayRow>)

  /** `Object.keys(metrics)`. */
  function Keys(m: seq<(string, int)>): (ks: seq<string>)
    ensures |ks| == |m|
    ensures forall j :: 0 <= j < |m| ==> ks[j] == m[j].0
  {
    if m == [] then [] else [m[0].0] + Keys(m[1..])
  }

  /** The `includes`/`push` walk over one record's keys: unseen keys are appended in order. */
  function AddKeys(known: seq<string>, keys: seq<string>): (r: seq<string>)
    ensures |known| <= |r| && r[..|known|] == known
    ensures forall k :: k in r <==> k in known || k in keys
    decreases |keys|
  {
    if keys == [] then known
    else AddKeys(if keys[0] in known then known else known + [keys[0]], keys[1..])
  }

  /** `knownmetrics` after the first `|rs|` records. */
  function KnownMetrics(rs: seq<DumpRecord>): seq<string> {
    if rs == [] then [] else AddKeys(KnownMetrics(rs[..|rs| - 1]), Keys(rs[|rs| - 1].metrics))
  }

  /** The value an object gives `key`, 0 when it has none (an object's keys are distinct). */
  function KeySum(m: seq<(string, int)>, key: string): int {
    if m == [] then 0 else KeySum(m[..|m| - 1], key) + (if m[|m| - 1].0 == key then m[|m| - 1].1 else 0)
  }

  /** The reference total: `key` summed over every record of `day`. */
  function DaySum(rs: seq<DumpRecord>, day: int, key: string): int {
    if rs == [] then 0
    else DaySum(rs[..|rs| - 1], day, key) + (if rs[|rs| - 1].day == day then KeySum(rs[|rs| - 1].metrics, key) else 0)
  }

  predicate HasDay(rs: seq<DumpRecord>, day: int) {
    exists j :: 0 <= j < |rs| && rs[j].day == day
  }

  predicate HasKey(m: seq<(string, int)>, key: string) {
    exists j :: 0 <= j < |m| && m[j].0 == key
  }

  /** The inner `forEach` that pushes unseen keys onto `knownmetrics`. */
  method PushNewKeys(known: seq<string>, keys: seq<string>) returns (r: seq<string>)
    ensures r == AddKeys(known, keys)
  {
    r := known;
    var j := 0;
    while j < |keys|
      invariant 0 <= j <= |keys|
      invariant AddKeys(r, keys[j..]) == AddKeys(known, keys)
    {
      assert keys[j..][0] == keys[j] && keys[j..][1..] == keys[j + 1..];
      ghost var next := if keys[j] in r then r else r + [keys[j]];
      assert AddKeys(r, keys[j..]) == AddKeys(next, keys[j + 1..]);
      if !(keys[j] in r) {
        r := r + [keys[j]];
      }
      j := j + 1;
    }
  }

  /**
   * The inner `forEach` over a record's entries on a day already seen: a
   * truthy total is increased, a missing or zero one is set to the value.
   */
  method AddToDay(totals: map<string, int>, m: seq<(string, int)>) returns (t: map<string, int>)
    ensures forall k :: k in t <==> k in totals || HasKey(m, k)
    ensures forall k :: k in t ==> t[k] == (if k in totals then totals[k] else 0) + KeySum(m, k)
  {
    t := totals;
    for j := 0 to |m|
      invariant forall k :: k in t <==> k in totals || HasKey(m[..j], k)
      invariant forall k :: k in t ==> t[k] == (if k in totals then totals[k] else 0) + KeySum(m[..j], k)
    {
      var key := m[j].0;
      var val := m[j].1;
      assert m[..j + 1][..j] == m[..j] && m[..j + 1][j] == m[j];
      assert forall k :: KeySum(m[..j + 1], k) == KeySum(m[..j], k) + (if m[j].0 == k then m[j].1 else 0);
      if key !in t {
        KeySumWithoutKey(m[..j], key);
      }
      if key in t && t[key] != 0 {
        t := t[key := t[key] + val];
      } else {
        t := t[key := val];
      }
      assert m[..j + 1][..j] == m[..j];
      forall k ensures HasKey(m[..j + 1], k) <==> HasKey(m[..j], k) || k == key {
        if HasKey(m[..j + 1], k) {
          var i :| 0 <= i < j + 1 && m[..j + 1][i].0 == k;
          if i < j { assert m[..j][i] == m[..j + 1][i]; }
        }
        if HasKey(m[..j], k) {
          var i :| 0 <= i < j && m[..j][i].0 == k;
          assert m[..j + 1][i] == m[..j][i];
        }
        if k == key { assert m[..j + 1][j].0 == k; }
      }
    }
    assert m[..|m|] == m;
  }

  /** `acc` holds, for each day seen in `rs` and no other, every metric's total over that day's records. */
  ghost predicate Totals(rs: seq<DumpRecord>, acc: map<int, map<string, int>>) {
    && (forall d :: d in acc <==> HasDay(rs, d))
    && (forall d :: d in acc ==> forall k :: k in acc[d] ==> acc[d][k] == DaySum(rs, d, k))
    && (forall d :: d in acc ==> forall k :: k !in acc[d] ==> DaySum(rs, d, k) == 0)
  }

  /** The `reduce`: `knownmetrics` and the per-day totals `aggregated`. */
  method Aggregate(records: seq<DumpRecord>) returns (known: seq<string>, acc: map<int, map<string, int>>)
    ensures known == KnownMetrics(records)
    ensures forall d :: d in acc <==> HasDay(records, d)
    ensures forall d :: d in acc ==> forall k :: k in acc[d] ==> acc[d][k] == DaySum(records, d, k)
    ensures forall d :: d in acc ==> forall k :: k !in acc[d] ==> DaySum(records, d, k) == 0
  {
    known := [];
    acc := map[];
    for i := 0 to |records|
      invariant known == KnownMetrics(records[..i])
      invariant Totals(records[..i], acc)
    {
      var rcrd := records[i];
      assert records[..i + 1][..i] == records[..i];
      assert records[..i + 1][i] == rcrd;
      known := PushNewKeys(known, Keys(rcrd.metrics));
      var prior := if rcrd.day in acc then acc[rcrd.day] else map[];
      var totals := AddToDay(prior, rcrd.metrics);
      TotalsStep(records, i, acc, prior, totals);
      acc := acc[rcrd.day := totals];
    }
    assert records[..|records|] == records;
  }

  /** One record's step of the `reduce` keeps `Totals`. */
  lemma TotalsStep(rs: seq<DumpRecord>, i: nat, acc: map<int, map<string, int>>, prior: map<string, int>, totals: map<string, int>)
    requires i < |rs| && Totals(rs[..i], acc)
    requires prior == if rs[i].day in acc then acc[rs[i].day] else map[]
    requires forall k :: k in totals <==> k in prior || HasKey(rs[i].metrics, k)
    requires forall k :: k in totals ==> totals[k] == (if k in prior then prior[k] else 0) + KeySum(rs[i].metrics, k)
    ensures Totals(rs[..i + 1], acc[rs[i].day := totals])
  {
    var r := rs[i];
    var before, after := rs[..i], rs[..i + 1];
    var next := acc[r.day := totals];
    assert after[..i] == before && after[i] == r;
    assert forall d, k :: DaySum(after, d, k) == DaySum(before, d, k) + (if r.day == d then KeySum(r.metrics, k) else 0);
    DaySumWithoutDay(before, r.day);
    HasDayStep(rs, i);
    forall d, k | d in next
      ensures k in next[d] ==> next[d][k] == DaySum(after, d, k)
      ensures k !in next[d] ==> DaySum(after, d, k) == 0
    {
      if d == r.day && k !in totals {
        KeySumWithoutKey(r.metrics, k);
      }
    }
  }

  /** One more record adds its own day to the days seen. */
  lemma HasDayStep(rs: seq<DumpRecord>, i: nat)
    requires i < |rs|
    ensures forall d :: HasDay(rs[..i + 1], d) <==> HasDay(rs[..i], d) || d == rs[i].day
  {
    forall d ensures HasDay(rs[..i + 1], d) <==> HasDay(rs[..i], d) || d == rs[i].day {
      if HasDay(rs[..i + 1], d) {
        var j :| 0 <= j < i + 1 && rs[..i + 1][j].day == d;
        if j < i { assert rs[..i][j] == rs[..i + 1][j]; }
      }
      if HasDay(rs[..i], d) {
        var j :| 0 <= j < i && rs[..i][j].day == d;
        assert rs[..i + 1][j] == rs[..i][j];
      }
      assert rs[..i + 1][i] == rs[i];
    }
  }

  /** A key an object does not have contributes nothing. */
  lemma {:induction false} KeySumWithoutKey(m: seq<(string, int)>, key: string)
    requires !HasKey(m, key)
    ensures KeySum(m, key) == 0
  {
    if m != [] {
      var init := m[..|m| - 1];
      assert !HasKey(init, key);
      KeySumWithoutKey(init, key);
    }
  }

  /** A day no record falls on totals 0 for every metric. */
  lemma {:induction false} DaySumWithoutDay(rs: seq<DumpRecord>, day: int)
    ensures !HasDay(rs, day) ==> forall k :: DaySum(rs, day, k) == 0
  {
    if rs != [] && !HasDay(rs, day) {
      var init := rs[..|rs| - 1];
      assert !HasDay(init, day);
      DaySumWithoutDay(init, day);
    }
  }

  function MinDay(rs: seq<DumpRecord>): (m: int)
    requires rs != []
    ensures HasDay(rs, m) && forall j :: 0 <= j < |rs| ==> m <= rs[j].day
  {
    if |rs| == 1 then rs[0].day
    else
      var rest := MinDay(rs[1..]);
      assert forall j :: 1 <= j < |rs| ==> rs[j] == rs[1..][j - 1];
      if rs[0].day <= rest then rs[0].day else rest
  }

  function MaxDay(rs: seq<DumpRecord>): (m: int)
    requires rs != []
    ensures HasDay(rs, m) && forall j :: 0 <= j < |rs| ==> rs[j].day <= m
  {
    if |rs| == 1 then rs[0].day
    else
      var rest := MaxDay(rs[1..]);
      assert forall j :: 1 <= j < |rs| ==> rs[j] == rs[1..][j - 1];
      if rs[0].day >= rest then rs[0].day else rest
  }

  /** `getDatesBetween`: every day from the first to the last, inclusive, one step at a time. */
  method DatesBetween(startDay: int, endDay: int) returns (dates: seq<int>)
    ensures |dates| == if startDay <= endDay then endDay - startDay + 1 else 0
    ensures forall i :: 0 <= i < |dates| ==> dates[i] == startDay + i
  {
    dates := [];
    var date := startDay;
    while date <= endDay
      invariant |dates| == date - startDay
      invariant startDay <= date
      invariant startDay <= endDay ==> date <= endDay + 1
      invariant startDay > endDay ==> date == startDay
      invariant forall i :: 0 <= i < |dates| ==> dates[i] == startDay + i
      decreases endDay - date
    {
      dates := dates + [date];
      date := date + 1;
    }
  }

  /** One output row: the day, then each known metric's total, 0 when the day or the metric is missing. */
  function DayRowFor(acc: map<int, map<string, int>>, known: seq<string>, date: int): (row: DayRow)
    ensures row.day == date && |row.counts| == |known|
  {
    DayRow(date, seq(|known|, k requires 0 <= k < |known| =>
      if date in acc then (if known[k] in acc[date] then acc[date][known[k]] else 0) else 0))
  }

  /**
   * The whole script on the parsed records. With no record the script
   * fails when it reads the first exported row, which is `None` here.
   */
  method DailySummary(records: seq<DumpRecord>) returns (r: Option<Summary>)
    ensures records == [] <==> r.None?
    ensures r.Some? ==> r.value.header == ["day"] + KnownMetrics(records)
    ensures r.Some? ==> |r.value.rows| == MaxDay(records) - MinDay(records) + 1
    ensures r.Some? ==> forall i, j :: 0 <= i < j < |r.value.rows| ==> r.value.rows[i].day < r.value.rows[j].day
    ensures r.Some? ==> forall i :: 0 <= i < |r.value.rows| ==>
              && r.value.rows[i].day == MinDay(records) + i
              && |r.value.rows[i].counts| == |KnownMetrics(records)|
              && forall k :: 0 <= k < |KnownMetrics(records)| ==>
                   r.value.rows[i].counts[k] == DaySum(records, r.value.rows[i].day, KnownMetrics(records)[k])
  {
    var known, aggregated := Aggregate(records);
    if records == [] {
      return None;
    }
    var firstDate := MinDay(records);
    var lastDate := MaxDay(records);
    var allDates := DatesBetween(firstDate, lastDate);
    var finalLogs := seq(|allDates|, i requires 0 <= i < |allDates| => DayRowFor(aggregated, known, allDates[i]));
    forall i, k | 0 <= i < |finalLogs| && 0 <= k < |known|
      ensures finalLogs[i].counts[k] == DaySum(records, finalLogs[i].day, known[k])
    {
      DaySumWithoutDay(records, allDates[i]);
    }
    r := Some(Summary(["day"] + known, finalLogs));
  }

  predicate Distinct(s: seq<string>) {
    forall i, j :: 0 <= i < j < |s| ==> s[i] != s[j]
  }

  /** `knownmetrics` never repeats a name. */
  lemma {:induction false} KnownMetricsDistinct(rs: seq<DumpRecord>)
    ensures Distinct(KnownMetrics(rs))
  {
    if rs != [] {
      KnownMetricsDistinct(rs[..|rs| - 1]);
      AddKeysKeepsDistinct(KnownMetrics(rs[..|rs| - 1]), Keys(rs[|rs| - 1].metrics));
      assert KnownMetrics(rs) == AddKeys(KnownMetrics(rs[..|rs| - 1]), Keys(rs[|rs| - 1].metrics));
    }
  }

  lemma {:induction false} AddKeysKeepsDistinct(known: seq<string>, keys: seq<string>)
    requires Distinct(known)
    ensures Distinct(AddKeys(known, keys))
    decreases |keys|
  {
    if keys != [] {
      var next := if keys[0] in known then known else known + [keys[0]];
      assert Distinct(next);
      AddKeysKeepsDistinct(next, keys[1..]);
      assert AddKeys(known, keys) == AddKeys(next, keys[1..]);
    }
  }

  /** A name is known exactly when some record's metrics have it. */
  lemma {:induction false} KnownMetricsComplete(rs: seq<DumpRecord>, key: string)
    ensures key in KnownMetrics(rs) <==> exists i :: 0 <= i < |rs| && HasKey(rs[i].metrics, key)
  {
    if rs != [] {
      var init := rs[..|rs| - 1];
      var last := rs[|rs| - 1];
      KnownMetricsComplete(init, key);
      assert key in Keys(last.metrics) <==> HasKey(last.metrics, key) by {
        if HasKey(last.metrics, key) {
          var j :| 0 <= j < |last.metrics| && last.metrics[j].0 == key;
          assert Keys(last.metrics)[j] == key;
        }
      }
      if exists i :: 0 <= i < |rs| && HasKey(rs[i].metrics, key) {
        var i :| 0 <= i < |rs| && HasKey(rs[i].metrics, key);
        if i < |rs| - 1 { assert init[i] == rs[i]; }
      }
      if exists i :: 0 <= i < |init| && HasKey(init[i].metrics, key) {
        var i :| 0 <= i < |init| && HasKey(init[i].metrics, key);
        assert rs[i] == init[i];
      }
    }
  }

  lemma KnownMetricsSnoc(rs: seq<DumpRecord>, r: DumpRecord)
    ensures KnownMetrics(rs + [r]) == AddKeys(KnownMetrics(rs), Keys(r.metrics))
  {
    assert (rs + [r])[..|rs|] == rs;
  }

  /** First-seen order: the names known after some records stay, in place, at the front after more records. */
  lemma {:induction false} KnownMetricsPrefixStable(rs: seq<DumpRecord>, more: seq<DumpRecord>)
    ensures |KnownMetrics(rs)| <= |KnownMetrics(rs + more)|
    ensures KnownMetrics(rs + more)[..|KnownMetrics(rs)|] == KnownMetrics(rs)
    decreases |more|
  {
    if more == [] {
      assert rs + more == rs;
    } else {
      var shorter := rs + more[..|more| - 1];
      assert rs + more == shorter + [more[|more| - 1]];
      KnownMetricsPrefixStable(rs, more[..|more| - 1]);
      KnownMetricsSnoc(shorter, more[|more| - 1]);
      var z := KnownMetrics(rs);
      var y := KnownMetrics(shorter);
      var x := KnownMetrics(rs + more);
      assert x[..|y|] == y;
      assert x[..|z|] == x[..|y|][..|z|];
    }
  }

  /** Every recorded day has its row: the range covers each record. */
  lemma EveryRecordDayCovered(records: seq<DumpRecord>, j: nat)
    requires j < |records|
    ensures MinDay(records) <= records[j].day <= MaxDay(records)
    ensures 0 <= records[j].day - MinDay(records) < MaxDay(records) - MinDay(records) + 1
  {
  }
}
