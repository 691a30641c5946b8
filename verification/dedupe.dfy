/**
 * The clean-up script for an export: it walks the parsed rows once, keeping a
 * row when no kept row has the same name, start and end and its name holds no
 * emoji, then writes the kept rows under the export header. The emoji test
 * (a Unicode property regex) is the `containsEmoji` argument.
 */
module Dedupe {
  import opened ExportCsv

  /** Rows that describe the same entry: equal name, start and end (the id is ignored). */
  predicate SameEntry(a: LogRow, b: LogRow) {
    a.name == b.name && a.timeStart == b.timeStart && a.timeEnd == b.timeEnd
  }

  /** `deduped.findIndex(...)`: the first kept row for the same entry, or -1. */
  function FindSame(deduped: seq<LogRow>, row: LogRow): (r: int)
    ensures -1 <= r < |deduped|
    ensures r >= 0 ==> SameEntry(deduped[r], row) && forall k :: 0 <= k < r ==> !SameEntry(deduped[k], row)
    ensures r == -1 <==> forall k :: 0 <= k < |deduped| ==> !SameEntry(deduped[k], row)
  {
    if deduped == [] then -1
    else if SameEntry(deduped[0], row) then 0
    else var r := FindSame(deduped[1..], row); if r == -1 then -1 else r + 1
  }

  /** The rows kept after the walk has seen `rows`. */
  function Kept(rows: seq<LogRow>, containsEmoji: string -> bool): seq<LogRow> {
    if rows == [] then []
    else
      var deduped := Kept(rows[..|rows| - 1], containsEmoji);
      var row := rows[|rows| - 1];
      if FindSame(deduped, row) == -1 && !containsEmoji(row.name) then deduped + [row] else deduped
  }

  /** The `for ... of` loop over the parsed rows. */
  method DedupeRows(rows: seq<LogRow>, containsEmoji: string -> bool) returns (deduped: seq<LogRow>)
    ensures deduped == Kept(rows, containsEmoji)
    ensures |deduped| <= |rows|
  {
    deduped := [];
    for i := 0 to |rows|
      invariant deduped == Kept(rows[..i], containsEmoji)
      invariant |deduped| <= i
    {
      var itm := rows[i];
      assert rows[..i + 1][..i] == rows[..i];
      if FindSame(deduped, itm) == -1 && !containsEmoji(itm.name) {
        deduped := deduped + [itm];
      }
    }
    assert rows[..|rows|] == rows;
  }

  /** Row `i` is the first row of its entry whose name has no emoji. */
  predicate FirstCleanOfEntry(rows: seq<LogRow>, containsEmoji: string -> bool, i: int)
    requires 0 <= i < |rows|
  {
    && !containsEmoji(rows[i].name)
    && forall j :: 0 <= j < i ==> !(SameEntry(rows[j], rows[i]) && !containsEmoji(rows[j].name))
  }

  /** Every row with an emoji-free name has its entry among the kept rows. */
  lemma {:induction false} EntryCovered(rows: seq<LogRow>, containsEmoji: string -> bool, j: nat)
    requires j < |rows| && !containsEmoji(rows[j].name)
    ensures exists k :: 0 <= k < |Kept(rows, containsEmoji)| && SameEntry(Kept(rows, containsEmoji)[k], rows[j])
  {
    var init := rows[..|rows| - 1];
    var deduped := Kept(init, containsEmoji);
    var row := rows[|rows| - 1];
    if j < |rows| - 1 {
      assert init[j] == rows[j];
      EntryCovered(init, containsEmoji, j);
      var k :| 0 <= k < |deduped| && SameEntry(deduped[k], rows[j]);
      assert Kept(rows, containsEmoji)[k] == deduped[k];
    } else if FindSame(deduped, row) == -1 {
      assert Kept(rows, containsEmoji)[|deduped|] == row;
    } else {
      assert Kept(rows, containsEmoji)[FindSame(deduped, row)] == deduped[FindSame(deduped, row)];
    }
  }

  /**
   * The kept rows are exactly the rows that are the first emoji-free row of
   * their entry, each with its own id, in input order: `idx` says where each
   * kept row comes from.
   */
  lemma {:induction false} KeptCharacterised(rows: seq<LogRow>, containsEmoji: string -> bool) returns (idx: seq<nat>)
    ensures |idx| == |Kept(rows, containsEmoji)|
    ensures forall k :: 0 <= k < |idx| ==> idx[k] < |rows| && Kept(rows, containsEmoji)[k] == rows[idx[k]]
    ensures forall k, l :: 0 <= k < l < |idx| ==> idx[k] < idx[l]
    ensures forall i :: 0 <= i < |rows| ==> (i in idx <==> FirstCleanOfEntry(rows, containsEmoji, i))
  {
    if rows == [] {
      return [];
    }
    var n := |rows| - 1;
    var init := rows[..n];
    var row := rows[n];
    var deduped := Kept(init, containsEmoji);
    var prior := KeptCharacterised(init, containsEmoji);
    forall i | 0 <= i < n ensures FirstCleanOfEntry(rows, containsEmoji, i) <==> FirstCleanOfEntry(init, containsEmoji, i) {
      assert forall j :: 0 <= j <= i ==> rows[j] == init[j];
    }
    var added := FindSame(deduped, row) == -1 && !containsEmoji(row.name);
    assert added <==> FirstCleanOfEntry(rows, containsEmoji, n) by {
      if FindSame(deduped, row) != -1 {
        var k := FindSame(deduped, row);
        var j := prior[k];
        assert init[j] == rows[j] && deduped[k] == init[j];
        assert FirstCleanOfEntry(init, containsEmoji, j);
        assert SameEntry(rows[j], rows[n]) && !containsEmoji(rows[j].name);
      } else if !containsEmoji(row.name) {
        forall j | 0 <= j < n && SameEntry(rows[j], rows[n]) && !containsEmoji(rows[j].name) ensures false {
          assert init[j] == rows[j];
          EntryCovered(init, containsEmoji, j);
          var k :| 0 <= k < |deduped| && SameEntry(deduped[k], init[j]);
          assert SameEntry(deduped[k], row);
        }
      }
    }
    if added {
      idx := prior + [n];
    } else {
      idx := prior;
    }
  }

  /** No two kept rows describe the same entry. */
  lemma {:induction false} KeptEntriesDistinct(rows: seq<LogRow>, containsEmoji: string -> bool)
    ensures forall k, l :: 0 <= k < l < |Kept(rows, containsEmoji)| ==>
              !SameEntry(Kept(rows, containsEmoji)[k], Kept(rows, containsEmoji)[l])
  {
    if rows != [] {
      KeptEntriesDistinct(rows[..|rows| - 1], containsEmoji);
    }
  }

  /** No kept row has a name with an emoji. */
  lemma {:induction false} KeptHaveNoEmoji(rows: seq<LogRow>, containsEmoji: string -> bool)
    ensures forall k :: 0 <= k < |Kept(rows, containsEmoji)| ==> !containsEmoji(Kept(rows, containsEmoji)[k].name)
  {
    if rows != [] {
      KeptHaveNoEmoji(rows[..|rows| - 1], containsEmoji);
    }
  }

  /** The file the script writes: the header, then the kept rows. */
  function DedupedFile(rows: seq<LogRow>, containsEmoji: string -> bool): (file: seq<seq<string>>)
    ensures |file| == 1 + |Kept(rows, containsEmoji)| && file[0] == ExportHeader
    ensures forall k :: 1 <= k < |file| ==> |file[k]| == |ExportHeader| && ParseRow(file[k]) == Kept(rows, containsEmoji)[k - 1]
  {
    var kept := Kept(rows, containsEmoji);
    var body := ExportRows(kept);
    assert forall k :: 0 <= k < |kept| ==> ParseRow(body[k]) == kept[k];
    [ExportHeader] + body
  }

  /** Of two rows of one entry with different ids, the first is kept and the later one dropped. */
  lemma LaterDuplicateDropped(a: LogRow, b: LogRow, containsEmoji: string -> bool)
    requires SameEntry(a, b) && !containsEmoji(a.name) && a.id != b.id
    ensures Kept([a, b], containsEmoji) == [a]
  {
    assert [a, b][..1] == [a];
    assert [a][..0] == [];
    assert Kept([a], containsEmoji) == [a];
    assert FindSame([a], b) == 0;
  }
}
